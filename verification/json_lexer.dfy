/** Lexing over a flat input: whitespace, literals, numbers and strings.
    Position `p` is the number of code units consumed; past the end the
    current character reads as NUL, as the source's `_nextChar` does. */
module JsonLexer {
  import opened Text16
  import opened Results
  import opened ParseErrors

  /** The current character `_nextChar`: NUL once the input is exhausted. */
  function Peek(s: Text, p: nat): Char16 {
    if p < |s| then s[p] else 0
  }

  predicate IsWhiteSpace(c: Char16) {
    c == Unit(' ') || c == Unit('\t') || c == Unit('\r') || c == Unit('\n')
  }

  /** `SkipWhiteSpaces`: the first position at or after `p` that is not
      whitespace. */
  function SkipWhiteSpaces(s: Text, p: nat): (r: nat)
    requires p <= |s|
    ensures p <= r <= |s|
    ensures forall i | p <= i < r :: IsWhiteSpace(s[i])
    ensures r == |s| || !IsWhiteSpace(s[r])
    decreases |s| - p
  {
    if p < |s| && IsWhiteSpace(s[p]) then SkipWhiteSpaces(s, p + 1) else p
  }

  /** `CheckToken`: matches the rest of a literal character by character,
      starting at `p` (the literal's first character is already consumed). */
  function CheckToken(s: Text, p: nat, lit: Text): (r: Result<nat, ParseError>)
    requires p <= |s|
    requires forall i | 0 <= i < |lit| :: lit[i] != 0
    ensures r.Ok? <==> p + |lit| <= |s| && s[p..p + |lit|] == lit
    ensures r.Ok? ==> r.value == p + |lit|
    ensures r.Err? ==>
      && r.error.Expecting? && p <= r.error.pos < p + |lit| && r.error.pos <= |s|
      && var i := r.error.pos - p;
      && r.error.what == Char(lit[i]) && s[p..p + i] == lit[..i] && Peek(s, p + i) != lit[i]
    decreases |lit|
  {
    if |lit| == 0 then Ok(p)
    else if Peek(s, p) != lit[0] then Err(Expecting(Char(lit[0]), p))
    else
      var r := CheckToken(s, p + 1, lit[1..]);
      assert r.Ok? ==> s[p..p + |lit|] == [s[p]] + s[p + 1..p + |lit|];
      r
  }

  // ---------------------------------------------------------------------
  // Numbers: -? digit+ ('.' digit+)? ([eE] [+-]? digit+)?, leading zeros allowed
  // ---------------------------------------------------------------------

  predicate IsDigits(t: Text) {
    |t| > 0 && AllDigits(t)
  }

  predicate IsFractionPart(t: Text) {
    |t| == 0 || (t[0] == Unit('.') && IsDigits(t[1..]))
  }

  predicate IsExponentPart(t: Text) {
    || |t| == 0
    || (&& (t[0] == Unit('e') || t[0] == Unit('E'))
        && (|| IsDigits(t[1..])
            || (|t| > 1 && (t[1] == Unit('+') || t[1] == Unit('-')) && IsDigits(t[2..]))))
  }

  /** `t` splits at `a <= b <= c` into sign, integer digits, fraction and exponent. */
  predicate NumberLexemeAt(t: Text, a: nat, b: nat, c: nat) {
    && a <= b <= c <= |t|
    && (t[..a] == [] || t[..a] == [Unit('-')])
    && IsDigits(t[a..b])
    && IsFractionPart(t[b..c])
    && IsExponentPart(t[c..])
  }

  predicate IsNumberLexeme(t: Text) {
    exists a: nat, b: nat, c: nat | a <= b <= c <= |t| :: NumberLexemeAt(t, a, b, c)
  }

  /** End of the maximal run of digits starting at `p`. */
  function DigitRun(s: Text, p: nat): (r: nat)
    requires p <= |s|
    ensures p <= r <= |s|
    ensures AllDigits(s[p..r])
    ensures !IsDigit(Peek(s, r))
    decreases |s| - p
  {
    if p < |s| && IsDigit(s[p]) then
      var r := DigitRun(s, p + 1);
      assert s[p..r] == [s[p]] + s[p + 1..r];
      r
    else p
  }

  function Pow10(n: nat): (r: nat)
    ensures r >= 1
  {
    if n == 0 then 1 else 10 * Pow10(n - 1)
  }

  /** The optional fraction at `b`: its value and the position after it. */
  function GetFraction(s: Text, b: nat): (r: Result<(real, nat), ParseError>)
    requires b <= |s| && !IsDigit(Peek(s, b))
    ensures r.Ok? ==> b <= r.value.1 <= |s| && !IsDigit(Peek(s, r.value.1))
    ensures r.Ok? ==> r.value.1 == b || (s[b] == Unit('.') && r.value.1 > b + 1 && AllDigits(s[b + 1..r.value.1]))
    ensures r.Ok? && r.value.1 == b ==> Peek(s, b) != Unit('.')
    ensures r.Err? ==> r.error == Expecting(Digit, b + 1) && Peek(s, b) == Unit('.') && !IsDigit(Peek(s, b + 1))
  {
    if Peek(s, b) != Unit('.') then Ok((0.0, b))
    else if !IsDigit(Peek(s, b + 1)) then Err(Expecting(Digit, b + 1))
    else
      var c := DigitRun(s, b + 1);
      Ok((DigitsValue(s[b + 1..c]) as real / Pow10(c - b - 1) as real, c))
  }

  /** The optional exponent at `c`: its signed value and the position after it. */
  function GetExponent(s: Text, c: nat): (r: Result<(int, nat), ParseError>)
    requires c <= |s| && !IsDigit(Peek(s, c))
    ensures r.Ok? ==> c <= r.value.1 <= |s| && !IsDigit(Peek(s, r.value.1))
    ensures r.Ok? ==> r.value.1 == c || IsExponentPart(s[c..r.value.1])
    ensures r.Ok? && r.value.1 == c ==> Peek(s, c) != Unit('e') && Peek(s, c) != Unit('E')
    ensures r.Err? ==>
      && r.error.Expecting? && r.error.what == Digit
      && c < r.error.pos <= |s| && !IsDigit(Peek(s, r.error.pos))
      && s[r.error.pos - 1] in {Unit('+'), Unit('-'), Unit('e'), Unit('E')}
  {
    if Peek(s, c) != Unit('e') && Peek(s, c) != Unit('E') then Ok((0, c))
    else
      var signed := Peek(s, c + 1) == Unit('+') || Peek(s, c + 1) == Unit('-');
      var d := if signed then c + 2 else c + 1;
      if !IsDigit(Peek(s, d)) then Err(Expecting(Digit, d))
      else
        var e := DigitRun(s, d);
        var magnitude: int := DigitsValue(s[d..e]);
        assert s[c..e][1..] == s[c + 1..e] && s[c..e][2..] == s[c + 2..e];
        Ok((if Peek(s, c + 1) == Unit('-') then -magnitude else magnitude, e))
  }

  /** 10 raised to a signed exponent. */
  function Scale(exponent: int): (r: real)
    ensures r > 0.0
  {
    if exponent >= 0 then Pow10(exponent) as real else 1.0 / Pow10(-exponent) as real
  }

  /** `GetNumber`, lexical part: the longest number lexeme at `p` and its
      exact value; "Expecting digit" where a required digit is missing. */
  function GetNumber(s: Text, p: nat): (r: Result<(real, nat), ParseError>)
    requires p < |s| && (IsDigit(s[p]) || s[p] == Unit('-'))
    ensures r.Ok? ==> p < r.value.1 <= |s| && IsNumberLexeme(s[p..r.value.1])
    ensures r.Ok? ==> !IsDigit(Peek(s, r.value.1))
    ensures r.Err? ==>
      && r.error.Expecting? && r.error.what == Digit
      && p < r.error.pos <= |s| && !IsDigit(Peek(s, r.error.pos))
      && s[r.error.pos - 1] in {Unit('-'), Unit('+'), Unit('.'), Unit('e'), Unit('E')}
  {
    var negative := s[p] == Unit('-');
    var a := if negative then p + 1 else p;
    if !IsDigit(Peek(s, a)) then Err(Expecting(Digit, a))
    else
      var b := DigitRun(s, a);
      match GetFraction(s, b)
      case Err(e) => Err(e)
      case Ok((fraction, c)) =>
        match GetExponent(s, c)
        case Err(e) => Err(e)
        case Ok((exponent, e)) =>
          var magnitude := (DigitsValue(s[a..b]) as real + fraction) * Scale(exponent);
          LexemeWitness(s, p, a, b, c, e);
          Ok((if negative then -magnitude else magnitude, e))
  }

  lemma SliceOfSlice(s: Text, p: nat, e: nat, x: nat, y: nat)
    requires p <= e <= |s| && x <= y <= e - p
    ensures s[p..e][x..y] == s[p + x..p + y]
  {
    forall i | 0 <= i < y - x
      ensures s[p..e][x..y][i] == s[p + x..p + y][i]
    {
    }
  }

  lemma LexemeWitness(s: Text, p: nat, a: nat, b: nat, c: nat, e: nat)
    requires p <= a <= p + 1 && a < b <= c <= e <= |s|
    requires a == p + 1 ==> s[p] == Unit('-')
    requires AllDigits(s[a..b])
    requires c == b || (s[b] == Unit('.') && c > b + 1 && AllDigits(s[b + 1..c]))
    requires e == c || IsExponentPart(s[c..e])
    ensures NumberLexemeAt(s[p..e], a - p, b - p, c - p)
  {
    var t := s[p..e];
    SliceOfSlice(s, p, e, a - p, b - p);
    SliceOfSlice(s, p, e, b - p, c - p);
    SliceOfSlice(s, p, e, c - p, e - p);
    SliceOfSlice(s, p, e, 0, a - p);
    assert t[c - p..] == t[c - p..e - p];
    if c > b {
      assert s[b..c][1..] == s[b + 1..c];
    }
  }

  // ---------------------------------------------------------------------
  // How far the number lexer reads
  // ---------------------------------------------------------------------

  /** Where a lexing step stopped: the position after what it read, or the
      position its error names. */
  function Stop<X>(r: Result<(X, nat), ParseError>): nat {
    if r.Ok? then r.value.1 else r.error.pos
  }

  predicate IsSign(c: Char16) {
    c == Unit('+') || c == Unit('-')
  }

  predicate IsExponentMark(c: Char16) {
    c == Unit('e') || c == Unit('E')
  }

  /** `t` is an exponent part, or would be with one more digit. */
  predicate ExponentViable(t: Text) {
    IsExponentPart(t) || IsExponentPart(t + [Unit('0')])
  }

  /** `t` is a number lexeme, or would be with one more digit: exactly the
      non-empty prefixes of number lexemes. */
  predicate NumberViable(t: Text) {
    IsNumberLexeme(t) || IsNumberLexeme(t + [Unit('0')])
  }

  /** `w` agrees with `s` from `p` up to and including position `q`, or,
      when `short` holds, is exactly `s[p..q]`. */
  predicate Covers(w: Text, s: Text, p: nat, q: nat, short: bool) {
    && p <= q <= |s|
    && ((|w| > q - p && q < |s|) || (short && |w| == q - p))
    && forall i | 0 <= i < |w| && i <= q - p && p + i < |s| :: w[i] == s[p + i]
  }

  /** A non-empty exponent part, position by position. */
  lemma ExponentShape(u: Text)
    ensures IsExponentPart(u) && |u| > 0 ==>
      && IsExponentMark(u[0]) && |u| > 1
      && (IsDigit(u[1]) ==> forall i | 1 <= i < |u| :: IsDigit(u[i]))
      && (!IsDigit(u[1]) ==> IsSign(u[1]) && |u| > 2 && forall i | 2 <= i < |u| :: IsDigit(u[i]))
  {
    if IsExponentPart(u) && |u| > 0 {
      assert forall i | 1 <= i < |u| :: u[1..][i - 1] == u[i];
      if |u| > 2 {
        assert forall i | 2 <= i < |u| :: u[2..][i - 2] == u[i];
      }
    }
  }

  /** A number lexeme split at `a`, `b`, `c`, position by position. */
  lemma LexemeShape(w: Text, a: nat, b: nat, c: nat)
    ensures NumberLexemeAt(w, a, b, c) ==>
      && a < b <= c <= |w| && a <= 1
      && (a == 1 ==> w[0] == Unit('-'))
      && (a == 0 ==> IsDigit(w[0]))
      && (forall i | a <= i < b :: IsDigit(w[i]))
      && (b < |w| ==> w[b] == Unit('.') || (b == c && IsExponentMark(w[b])))
      && (b < c ==> w[b] == Unit('.') && b + 1 < c && forall i | b + 1 <= i < c :: IsDigit(w[i]))
      && (c < |w| ==> !IsDigit(w[c]))
      && IsExponentPart(w[c..])
  {
    if NumberLexemeAt(w, a, b, c) {
      assert |w[..a]| == a;
      assert forall i | a <= i < b :: w[a..b][i - a] == w[i];
      if b < c {
        var f := w[b..c];
        assert f[0] == w[b];
        assert forall i | b + 1 <= i < c :: f[1..][i - b - 1] == w[i];
      }
      if c < |w| {
        ExponentShape(w[c..]);
        assert w[c..][0] == w[c];
      }
    }
  }

  /** A run of digits in `w` that starts where one in `s` does, and reads
      like `s` up to where that one ends, ends there too. */
  lemma SameRunEnd(w: Text, s: Text, p: nat, k: nat, x: nat, j: nat, y: nat)
    requires forall i | 0 <= i < |w| && i <= k && p + i < |s| :: w[i] == s[p + i]
    requires p + x <= y <= p + k && y < |s| && y - p < |w|
    requires AllDigits(s[p + x..y]) && !IsDigit(s[y])
    ensures x <= j <= |w| && (forall i | x <= i < j :: IsDigit(w[i])) && (j < |w| ==> !IsDigit(w[j])) ==> j == y - p
  {
    assert forall i | x <= i < y - p :: IsDigit(w[i]) by {
      forall i | x <= i < y - p
        ensures IsDigit(w[i])
      {
        assert w[i] == s[p + x..y][i - x];
      }
    }
    assert !IsDigit(w[y - p]) by {
      assert w[y - p] == s[y];
    }
  }

  /** No text that reads like `s` from `c` through where `GetExponent`
      stopped is an exponent part, nor, on an error, the text it read. */
  lemma {:induction false} ExponentStop(s: Text, c: nat, u: Text)
    requires c <= |s| && !IsDigit(Peek(s, c))
    requires Covers(u, s, c, Stop(GetExponent(s, c)), GetExponent(s, c).Err?)
    ensures !IsExponentPart(u)
  {
    var q := Stop(GetExponent(s, c));
    ExponentShape(u);
    if IsExponentMark(Peek(s, c)) {
      var d := if IsSign(Peek(s, c + 1)) then c + 2 else c + 1;
      assert u[0] == s[c];
      if !IsDigit(Peek(s, d)) {
        assert GetExponent(s, c) == Err(Expecting(Digit, d));
        assert |u| > 1 ==> u[1] == s[c + 1];
        assert |u| > 2 && d == c + 2 ==> u[2] == s[c + 2];
      } else {
        var e := DigitRun(s, d);
        assert GetExponent(s, c).Ok? && q == e && e < |s|;
        assert |u| > 1 ==> u[1] == s[c + 1];
        assert u[e - c] == s[e];
      }
    } else if |u| > 0 {
      assert u[0] == s[c];
    }
  }

  /** `GetExponent` reads the longest text from `c` that is, or with one
      more digit would be, an exponent part; it succeeds exactly when what
      it read is one, and otherwise expects a digit where it stopped. */
  lemma {:induction false} GetExponentLongest(s: Text, c: nat)
    requires c <= |s| && !IsDigit(Peek(s, c))
    ensures var r, q := GetExponent(s, c), Stop(GetExponent(s, c));
      && c <= q <= |s|
      && ExponentViable(s[c..q])
      && (r.Ok? <==> IsExponentPart(s[c..q]))
      && (r.Err? ==> r.error == Expecting(Digit, q))
      && forall q' | q < q' <= |s| :: !ExponentViable(s[c..q'])
  {
    var r, q := GetExponent(s, c), Stop(GetExponent(s, c));
    if r.Err? {
      var t := s[c..q];
      var d := if IsSign(Peek(s, c + 1)) then c + 2 else c + 1;
      assert q == d;
      assert (t + [Unit('0')])[1..] == t[1..] + [Unit('0')];
      if d == c + 2 {
        assert (t + [Unit('0')])[2..] == [Unit('0')];
      } else {
        assert t[1..] == [];
      }
      ExponentStop(s, c, t);
    }
    forall q' | q < q' <= |s|
      ensures !ExponentViable(s[c..q'])
    {
      ExponentStop(s, c, s[c..q']);
      ExponentStop(s, c, s[c..q'] + [Unit('0')]);
    }
  }

  /** No text that reads like `s` from `p` through where `GetNumber`
      stopped is a number lexeme, nor, on an error, the text it read. */
  lemma {:induction false} NumberStop(s: Text, p: nat, w: Text)
    requires p < |s| && (IsDigit(s[p]) || s[p] == Unit('-'))
    requires Covers(w, s, p, Stop(GetNumber(s, p)), GetNumber(s, p).Err?)
    ensures !IsNumberLexeme(w)
  {
    forall a: nat, b: nat, c: nat | a <= b <= c <= |w|
      ensures !NumberLexemeAt(w, a, b, c)
    {
      NumberStopAt(s, p, w, a, b, c);
    }
  }

  lemma {:induction false} NumberStopAt(s: Text, p: nat, w: Text, a: nat, b: nat, c: nat)
    requires p < |s| && (IsDigit(s[p]) || s[p] == Unit('-'))
    requires Covers(w, s, p, Stop(GetNumber(s, p)), GetNumber(s, p).Err?)
    ensures !NumberLexemeAt(w, a, b, c)
  {
    var q := Stop(GetNumber(s, p));
    LexemeShape(w, a, b, c);
    assert w[0] == s[p];
    var a0 := if s[p] == Unit('-') then p + 1 else p;
    if !IsDigit(Peek(s, a0)) {
      assert q == a0;
      assert a0 - p < |w| ==> w[a0 - p] == s[a0];
    } else {
      var b0 := DigitRun(s, a0);
      var f := GetFraction(s, b0);
      if f.Err? {
        assert GetNumber(s, p) == Err(f.error);
      } else {
        assert Stop(GetNumber(s, p)) == Stop(GetExponent(s, f.value.1));
        assert GetNumber(s, p).Err? == GetExponent(s, f.value.1).Err?;
      }
      assert b0 <= q && b0 < |s|;
      SameRunEnd(w, s, p, q - p, a0 - p, b, b0);
      TailStopAt(s, p, w, b, c, b0, q, GetNumber(s, p).Err?);
    }
  }

  /** The part after the integer digits, which end at `b0` in `s`. */
  lemma {:induction false} TailStopAt(s: Text, p: nat, w: Text, b: nat, c: nat, b0: nat, q: nat, short: bool)
    requires p < b0 < |s| && !IsDigit(s[b0]) && b0 <= q
    requires GetFraction(s, b0).Err? ==> q == b0 + 1 && short
    requires GetFraction(s, b0).Ok? ==>
      var e := GetExponent(s, GetFraction(s, b0).value.1);
      q == Stop(e) && short == e.Err?
    requires Covers(w, s, p, q, short)
    ensures !(&& b == b0 - p && b <= c <= |w|
              && (b < |w| ==> w[b] == Unit('.') || (b == c && IsExponentMark(w[b])))
              && (b < c ==> w[b] == Unit('.') && b + 1 < c && forall i | b + 1 <= i < c :: IsDigit(w[i]))
              && (c < |w| ==> !IsDigit(w[c]))
              && IsExponentPart(w[c..]))
  {
    var f := GetFraction(s, b0);
    assert w[b0 - p] == s[b0];
    if f.Err? {
      assert b0 + 1 - p < |w| ==> w[b0 + 1 - p] == s[b0 + 1];
    } else {
      var c0 := f.value.1;
      if c0 > b0 {
        SameRunEnd(w, s, p, q - p, b0 + 1 - p, c, c0);
      }
      var u := w[c0 - p..];
      assert forall i | 0 <= i < |u| && i <= q - c0 && c0 + i < |s| :: u[i] == w[c0 - p + i];
      ExponentStop(s, c0, u);
    }
  }

  /** `GetNumber` reads the longest text from `p` that is, or with one
      more digit would be, a number lexeme; it succeeds exactly when what
      it read is one, and otherwise expects a digit where it stopped. */
  lemma {:induction false} GetNumberLongest(s: Text, p: nat)
    requires p < |s| && (IsDigit(s[p]) || s[p] == Unit('-'))
    ensures var r, q := GetNumber(s, p), Stop(GetNumber(s, p));
      && p < q <= |s|
      && NumberViable(s[p..q])
      && (r.Ok? <==> IsNumberLexeme(s[p..q]))
      && (r.Err? ==> r.error == Expecting(Digit, q))
      && forall q' | q < q' <= |s| :: !NumberViable(s[p..q'])
  {
    var r, q := GetNumber(s, p), Stop(GetNumber(s, p));
    if r.Err? {
      NumberStop(s, p, s[p..q]);
      NumberErrorViable(s, p);
    }
    forall q' | q < q' <= |s|
      ensures !NumberViable(s[p..q'])
    {
      NumberStop(s, p, s[p..q']);
      NumberStop(s, p, s[p..q'] + [Unit('0')]);
    }
  }

  /** Where `GetNumber` fails, one more digit would have completed a number. */
  lemma {:induction false} NumberErrorViable(s: Text, p: nat)
    requires p < |s| && (IsDigit(s[p]) || s[p] == Unit('-'))
    requires GetNumber(s, p).Err?
    ensures IsNumberLexeme(s[p..Stop(GetNumber(s, p))] + [Unit('0')])
  {
    var q := Stop(GetNumber(s, p));
    var a0 := if s[p] == Unit('-') then p + 1 else p;
    if !IsDigit(Peek(s, a0)) {
      var t := s[p..q] + [Unit('0')];
      assert q == a0 == p + 1;
      assert t == [Unit('-'), Unit('0')];
      assert NumberLexemeAt(t, 1, 2, 2) by {
        assert t[1..2] == [Unit('0')] && t[2..2] == [] && t[..1] == [Unit('-')];
      }
    } else {
      var b0 := DigitRun(s, a0);
      var f := GetFraction(s, b0);
      if f.Err? {
        assert GetNumber(s, p) == Err(f.error);
        FractionErrorViable(s, p, a0, b0);
      } else {
        var c0 := f.value.1;
        assert GetNumber(s, p).error == GetExponent(s, c0).error;
        ExponentErrorViable(s, p, a0, b0, c0);
      }
    }
  }

  /** Digits, then a point with nothing after it: one more digit completes it. */
  lemma FractionErrorViable(s: Text, p: nat, a0: nat, b0: nat)
    requires p <= a0 <= p + 1 && a0 < b0 < |s|
    requires a0 == p + 1 ==> s[p] == Unit('-')
    requires AllDigits(s[a0..b0]) && s[b0] == Unit('.')
    ensures IsNumberLexeme(s[p..b0 + 1] + [Unit('0')])
  {
    var t := s[p..b0 + 1] + [Unit('0')];
    assert t[a0 - p..b0 - p] == s[a0..b0];
    assert t[b0 - p + 1..b0 - p + 2] == [Unit('0')];
    LexemeWitness(t, 0, a0 - p, b0 - p, b0 - p + 2, |t|);
    assert t[0..|t|] == t;
  }

  /** Digits, an optional fraction, then an unfinished exponent: one more
      digit completes it. */
  lemma ExponentErrorViable(s: Text, p: nat, a0: nat, b0: nat, c0: nat)
    requires p <= a0 <= p + 1 && a0 < b0 <= c0 <= |s|
    requires a0 == p + 1 ==> s[p] == Unit('-')
    requires AllDigits(s[a0..b0])
    requires c0 == b0 || (s[b0] == Unit('.') && c0 > b0 + 1 && AllDigits(s[b0 + 1..c0]))
    requires !IsDigit(Peek(s, c0)) && GetExponent(s, c0).Err?
    ensures IsNumberLexeme(s[p..Stop(GetExponent(s, c0))] + [Unit('0')])
  {
    var q := Stop(GetExponent(s, c0));
    GetExponentLongest(s, c0);
    var t := s[p..q] + [Unit('0')];
    forall i | 0 <= i < b0 - a0
      ensures t[a0 - p..b0 - p][i] == s[a0..b0][i]
    {
    }
    assert t[a0 - p..b0 - p] == s[a0..b0];
    if c0 > b0 {
      forall i | b0 + 1 <= i < c0
        ensures t[i - p] == s[i]
      {
      }
      assert t[b0 - p + 1..c0 - p] == s[b0 + 1..c0];
    }
    assert t[c0 - p..|t|] == s[c0..q] + [Unit('0')];
    LexemeWitness(t, 0, a0 - p, b0 - p, c0 - p, |t|);
    assert t[0..|t|] == t;
  }

  // ---------------------------------------------------------------------
  // Strings
  // ---------------------------------------------------------------------

  /** Hexadecimal digit value, either case. */
  function HexValue(c: Char16): (r: Option<nat>)
    ensures r.Some? ==> r.value < 16
  {
    if Unit('0') <= c <= Unit('9') then Some((c - Unit('0')) as nat)
    else if Unit('a') <= c <= Unit('f') then Some((c - Unit('a')) as nat + 10)
    else if Unit('A') <= c <= Unit('F') then Some((c - Unit('A')) as nat + 10)
    else None
  }

  /** `UnEscapeUnicode`: four hex digits after the `u` at `q`; returns the
      code unit and the position after the last digit. */
  function UnEscapeUnicode(s: Text, q: nat): (r: Result<(Char16, nat), ParseError>)
    ensures r.Ok? <==> forall k | q < k <= q + 4 :: HexValue(Peek(s, k)).Some?
    ensures r.Ok? ==> r.value.1 == q + 5 && r.value.1 <= |s|
    ensures r.Err? ==>
      && r.error.InvalidUnicodeEscape? && q < r.error.pos <= q + 4
      && r.error.ch == Peek(s, r.error.pos) && HexValue(r.error.ch).None?
      && forall k | q < k < r.error.pos :: HexValue(Peek(s, k)).Some?
  {
    var d1 := HexValue(Peek(s, q + 1));
    var d2 := HexValue(Peek(s, q + 2));
    var d3 := HexValue(Peek(s, q + 3));
    var d4 := HexValue(Peek(s, q + 4));
    if d1.None? then Err(InvalidUnicodeEscape(Peek(s, q + 1), q + 1))
    else if d2.None? then Err(InvalidUnicodeEscape(Peek(s, q + 2), q + 2))
    else if d3.None? then Err(InvalidUnicodeEscape(Peek(s, q + 3), q + 3))
    else if d4.None? then Err(InvalidUnicodeEscape(Peek(s, q + 4), q + 4))
    else Ok(((((d1.value * 16 + d2.value) * 16 + d3.value) * 16 + d4.value) as Char16, q + 5))
  }

  /** The escape table: the character after the backslash and what it stands for. */
  const SimpleEscapes: map<Char16, Char16> := map[
    Unit('\\') := Unit('\\'), Unit('/') := Unit('/'), Unit('"') := Unit('"'),
    Unit('b') := 0x08, Unit('f') := 0x0C, Unit('n') := 0x0A, Unit('r') := 0x0D, Unit('t') := 0x09]

  /** `UnEscape`: the escape sequence whose backslash is at `p`; returns the
      decoded code unit and the position after the sequence. */
  function UnEscape(s: Text, p: nat): (r: Result<(Char16, nat), ParseError>)
    ensures r.Ok? ==> r.value.1 <= |s|
    ensures Peek(s, p + 1) in SimpleEscapes ==> r == Ok((SimpleEscapes[Peek(s, p + 1)], p + 2))
    ensures Peek(s, p + 1) == Unit('u') ==> r == UnEscapeUnicode(s, p + 1)
    ensures Peek(s, p + 1) !in SimpleEscapes && Peek(s, p + 1) != Unit('u') ==>
      r == Err(InvalidEscape(Peek(s, p + 1), p + 1))
  {
    var c := Peek(s, p + 1);
    if c == Unit('\\') || c == Unit('/') || c == Unit('"') then Ok((c, p + 2))
    else if c == Unit('b') then Ok((0x08, p + 2))
    else if c == Unit('f') then Ok((0x0C, p + 2))
    else if c == Unit('n') then Ok((0x0A, p + 2))
    else if c == Unit('r') then Ok((0x0D, p + 2))
    else if c == Unit('t') then Ok((0x09, p + 2))
    else if c == Unit('u') then UnEscapeUnicode(s, p + 1)
    else Err(InvalidEscape(c, p + 1))
  }

  /** The string decoder, one code unit at a time from `p` (just after the
      opening quote), accumulating into `acc`; returns the text and the
      position after the closing quote. */
  function ScanString(s: Text, p: nat, acc: Text): (r: Result<(Text, nat), ParseError>)
    requires p <= |s|
    ensures r.Ok? ==> p < r.value.1 <= |s| && s[r.value.1 - 1] == Unit('"')
    ensures r.Err? ==> p <= r.error.pos <= |s|
    ensures r.Err? ==> r.error.UnexpectedEnd? || r.error.UnexpectedChar? || r.error.InvalidEscape? || r.error.InvalidUnicodeEscape?
    ensures r.Ok? ==> forall i | p <= i < r.value.1 - 1 :: s[i] >= 0x20
    ensures r.Err? && r.error.UnexpectedEnd? ==> r.error.pos == |s|
    ensures r.Err? && r.error.UnexpectedChar? ==>
      r.error.pos < |s| && s[r.error.pos] < 0x20 && r.error.ch == s[r.error.pos]
    ensures r.Err? && r.error.InvalidEscape? ==>
      && p < r.error.pos && s[r.error.pos - 1] == Unit('\\') && r.error.ch == Peek(s, r.error.pos)
      && r.error.ch !in SimpleEscapes && r.error.ch != Unit('u')
    ensures r.Err? && r.error.InvalidUnicodeEscape? ==>
      r.error.ch == Peek(s, r.error.pos) && HexValue(r.error.ch).None?
    decreases |s| - p
  {
    if p == |s| then Err(UnexpectedEnd(p))
    else if s[p] == Unit('"') then Ok((acc, p + 1))
    else if s[p] == Unit('\\') then
      match UnEscape(s, p)
      case Err(e) => Err(e)
      case Ok((c, q)) => ScanString(s, q, acc + [c])
    else if s[p] < 0x20 then Err(UnexpectedChar(s[p], p))
    else ScanString(s, p + 1, acc + [s[p]])
  }
}
