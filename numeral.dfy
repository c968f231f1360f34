/**
 * Decimal numerals in the syntax `parseNumber` accepts, what they denote, and the parts the
 * lexer reads from them. The value of a numeral is defined here independently of the lexer.
 */
module Numerals {
  import opened Wrappers
  import opened CodeUnits
  import opened Text
  import opened Cursor
  import opened DigitSpans
  import opened Numbers

  datatype Sign = Unsigned | Negative | Positive

  function SignText(s: Sign): seq<CodeUnit> {
    match s
    case Unsigned => []
    case Negative => [Minus]
    case Positive => [Plus]
  }

  datatype Exponent = Exponent(upper: bool, sign: Sign, digits: seq<CodeUnit>)

  /**
   * An optional sign, integer digits, a fraction written after `.` when it has digits, and an
   * optional exponent `e`/`E` with its own sign and at least one digit.
   */
  datatype Numeral = Numeral(sign: Sign, whole: seq<CodeUnit>, frac: seq<CodeUnit>, exp: Option<Exponent>)

  predicate WellFormed(n: Numeral) {
    AllDigits(n.whole) && AllDigits(n.frac) &&
    (n.exp.Some? ==> AllDigits(n.exp.value.digits) && n.exp.value.digits != [])
  }

  function ExponentText(x: Option<Exponent>): seq<CodeUnit> {
    match x
    case None => []
    case Some(e) => [if e.upper then UpperE else LowerE] + SignText(e.sign) + e.digits
  }

  function FractionText(frac: seq<CodeUnit>): seq<CodeUnit> {
    if frac == [] then [] else [Dot] + frac
  }

  function NumeralText(n: Numeral): seq<CodeUnit> {
    SignText(n.sign) + n.whole + FractionText(n.frac) + ExponentText(n.exp)
  }

  /** The power of ten a numeral's exponent denotes (0 without one). */
  function ExponentValue(n: Numeral): int
    requires WellFormed(n)
  {
    match n.exp
    case None => 0
    case Some(e) => Negate(e.sign == Negative, DecimalValue(e.digits))
  }

  /**
   * What a numeral denotes: its digits, integer and fraction together, read as one integer,
   * signed, and scaled by ten to the exponent less the number of fraction digits.
   */
  function NumeralValue(n: Numeral): real
    requires WellFormed(n)
  {
    DecimalValueAppend(n.whole, n.frac);
    Scaled(Negate(n.sign == Negative, DecimalValue(n.whole + n.frac)), ExponentValue(n) - |n.frac|)
  }

  /** The parts a numeral is made of, in the shape `parseNumber` collects them. */
  function PartsOf(n: Numeral): NumberParts
    requires WellFormed(n)
  {
    NumberParts(
      n.sign == Negative, DecimalValue(n.whole), |n.whole|,
      DecimalValue(n.frac), |n.frac|,
      n.exp.Some? && n.exp.value.sign == Negative,
      if n.exp.Some? then DecimalValue(n.exp.value.digits) else 0,
      if n.exp.Some? then |n.exp.value.digits| else 0)
  }

  /** The arithmetic of one step of `DecimalValueAppend`. */
  lemma ShiftStep(x: int, y: int, p: int, v: int)
    ensures (x * p + y) * 10 + v == x * (10 * p) + (y * 10 + v)
  {
  }

  /** Appending digits shifts the value of the digits before them. */
  lemma {:induction false} DecimalValueAppend(a: seq<CodeUnit>, b: seq<CodeUnit>)
    requires AllDigits(a) && AllDigits(b)
    ensures AllDigits(a + b)
    ensures DecimalValue(a + b) == DecimalValue(a) * Pow(|b|) + DecimalValue(b)
    decreases |b|
  {
    assert AllDigits(a + b) by {
      assert forall k | 0 <= k < |a + b| :: (a + b)[k] == if k < |a| then a[k] else b[k - |a|];
    }
    if b == [] {
      assert a + b == a;
    } else {
      var b', d := b[..|b| - 1], b[|b| - 1];
      var x, y, p := DecimalValue(a), DecimalValue(b'), Pow(|b'|);
      var v := d as int - Zero as int;
      assert DecimalValue(a + b) == DecimalValue(a + b') * 10 + v by {
        assert (a + b)[..|a + b| - 1] == a + b';
      }
      DecimalValueAppend(a, b');
      assert DecimalValue(b) == y * 10 + v;
      assert Pow(|b|) == 10 * p;
      ShiftStep(x, y, p, v);
    }
  }

  /** The signed integer the parts scale is the numeral's digits read as one integer. */
  lemma MantissaOfParts(n: Numeral)
    requires WellFormed(n)
    ensures AllDigits(n.whole + n.frac)
    ensures var p := PartsOf(n);
      Negate(p.negative, p.intPart * Pow(p.fracDigits) + p.frac) == Negate(n.sign == Negative, DecimalValue(n.whole + n.frac))
  {
    DecimalValueAppend(n.whole, n.frac);
  }

  /** The power of ten the parts scale by is the numeral's. */
  lemma ScaleOfParts(n: Numeral)
    requires WellFormed(n)
    ensures FinalExponent(PartsOf(n)) - PartsOf(n).fracDigits == ExponentValue(n) - |n.frac|
  {
  }

  /** With the sign applied to both terms, the parts are worth what the numeral denotes. */
  lemma SignedValueOfParts(n: Numeral)
    requires WellFormed(n)
    ensures SignedValue(PartsOf(n)) == NumeralValue(n)
  {
    MantissaOfParts(n);
    ScaleOfParts(n);
  }

  /**
   * The formula as written agrees with the numeral exactly when the numeral is not negative or
   * its fraction is zero: with a `-` sign, the fraction is added instead of subtracted.
   */
  lemma ValueOfParts(n: Numeral)
    requires WellFormed(n)
    ensures Value(PartsOf(n)) == NumeralValue(n) <==> n.sign != Negative || DecimalValue(n.frac) == 0
  {
    var p := PartsOf(n);
    var w := p.intPart * Pow(p.fracDigits);
    SignedValueOfParts(n);
    ScaledInjective(Negate(p.negative, w) + p.frac, Negate(p.negative, w + p.frac), FinalExponent(p) - p.fracDigits);
  }

  /** What may follow a numeral without being read into it: nothing `parseNumber` would step over. */
  predicate Ends(rest: seq<CodeUnit>) {
    rest != [] ==>
      !IsDigit(rest[0]) && !IsWhitespace(rest[0]) && rest[0] != Dot &&
      rest[0] != LowerE && rest[0] != UpperE && rest[0] != Minus && rest[0] != Plus
  }

  /** The span `parseDigitSpan` returns for a run of digits. */
  function RunSpan(run: seq<CodeUnit>): (r: DigitSpan)
    requires AllDigits(run)
    ensures r.value.GetOr(0) == DecimalValue(run) && r.count == |run|
  {
    if run == [] then NoDigits else DigitSpan(Some(DecimalValue(run)), |run|)
  }

  /** The span `parseDigitSpan` returns for the digits of an exponent section (none without one). */
  function ExponentSpan(x: Option<Exponent>): (r: DigitSpan)
    requires x.Some? ==> AllDigits(x.value.digits)
    ensures r.value.GetOr(0) == (if x.Some? then DecimalValue(x.value.digits) else 0)
    ensures r.count == (if x.Some? then |x.value.digits| else 0)
  {
    if x.Some? then RunSpan(x.value.digits) else NoDigits
  }

  /** Reading the text at offset `i` as `c` followed by `tail`. */
  lemma Split(data: seq<CodeUnit>, i: nat, c: seq<CodeUnit>, tail: seq<CodeUnit>)
    requires i <= |data| && data[i..] == c + tail
    ensures i + |c| <= |data| && data[i..i + |c|] == c && data[i + |c|..] == tail
    ensures CurAt(data, i + |c|) == if tail == [] then None else Some(tail[0])
    ensures c != [] ==> CurAt(data, i) == Some(c[0])
  {
    assert data[i..i + |c|] == (c + tail)[..|c|];
    assert data[i + |c|..] == (c + tail)[|c|..];
    if tail != [] {
      assert data[i + |c|] == data[i..][|c|];
    }
    if c != [] {
      assert data[i] == data[i..][0];
    }
  }

  /** A run of digits followed by a code unit that is neither digit nor whitespace is read exactly. */
  lemma DigitSpanOfPrefix(data: seq<CodeUnit>, i: nat, run: seq<CodeUnit>, tail: seq<CodeUnit>)
    requires i <= |data| && data[i..] == run + tail && AllDigits(run)
    requires tail != [] ==> !IsDigit(tail[0]) && !IsWhitespace(tail[0])
    ensures DigitSpanAt(data, i) == Lexed(RunSpan(run), i + |run|, [])
  {
    Split(data, i, run, tail);
    DigitSpanOfRun(data, i, run);
  }

  /** A sign that is followed by no whitespace ends right after it. */
  lemma SignOfPrefix(data: seq<CodeUnit>, i: nat, s: Sign, tail: seq<CodeUnit>)
    requires i <= |data| && data[i..] == SignText(s) + tail
    requires tail != [] ==> !IsWhitespace(tail[0])
    requires s == Unsigned && tail != [] ==> tail[0] != Minus && tail[0] != Plus
    ensures SignAt(data, i) == (s == Negative, i + |SignText(s)|)
  {
    Split(data, i, SignText(s), tail);
  }

  /** The fraction section reads `.` and the fraction digits, or nothing when there are none. */
  lemma FractionOfPrefix(data: seq<CodeUnit>, i: nat, frac: seq<CodeUnit>, tail: seq<CodeUnit>) returns (f: nat)
    requires i <= |data| && data[i..] == FractionText(frac) + tail && AllDigits(frac)
    requires tail != [] ==> !IsDigit(tail[0]) && !IsWhitespace(tail[0]) && tail[0] != Dot
    ensures f == i + |FractionText(frac)| && f <= |data| && data[f..] == tail
    ensures FractionAt(data, i) == Lexed(RunSpan(frac), f, [])
  {
    if frac == [] {
      f := i;
      CurOfSuffix(data, i, tail);
    } else {
      assert data[i..] == [Dot] + (frac + tail);
      UnitOfPrefix(data, i, Dot, frac + tail);
      DigitSpanOfPrefix(data, i + 1, frac, tail);
      Split(data, i + 1, frac, tail);
      f := i + 1 + |frac|;
    }
  }

  /** The code unit at offset `i` is the first of the text from `i` on. */
  lemma CurOfSuffix(data: seq<CodeUnit>, i: nat, tail: seq<CodeUnit>)
    requires i <= |data| && data[i..] == tail
    ensures CurAt(data, i) == if tail == [] then None else Some(tail[0])
  {
    if tail != [] {
      assert data[i] == data[i..][0];
    }
  }

  /** The exponent section reads the mark, the sign and the digits, or nothing without a mark. */
  lemma ExponentOfPrefix(data: seq<CodeUnit>, i: nat, x: Option<Exponent>, tail: seq<CodeUnit>) returns (e: nat)
    requires i <= |data| && data[i..] == ExponentText(x) + tail
    requires x.Some? ==> AllDigits(x.value.digits) && x.value.digits != []
    requires tail != [] ==> !IsDigit(tail[0]) && !IsWhitespace(tail[0]) && tail[0] != LowerE && tail[0] != UpperE
    ensures e == i + |ExponentText(x)| && e <= |data|
    ensures ExponentAt(data, i) == (x.Some? && x.value.sign == Negative, Lexed(ExponentSpan(x), e, []))
  {
    if x.Some? {
      var mark := if x.value.upper then UpperE else LowerE;
      ExponentTextOfSome(x.value, tail);
      e := MarkedExponentOfPrefix(data, i, mark, x.value.sign, x.value.digits, tail);
    } else {
      e := i;
      CurOfSuffix(data, i, tail);
    }
  }

  /** The text of an exponent section, taken apart. */
  lemma ExponentTextOfSome(e: Exponent, tail: seq<CodeUnit>)
    ensures ExponentText(Some(e)) + tail == [if e.upper then UpperE else LowerE] + (SignText(e.sign) + (e.digits + tail))
    ensures |ExponentText(Some(e))| == 1 + |SignText(e.sign)| + |e.digits|
  {
  }

  /** A sign directly followed by digits ends where the digits start. */
  lemma SignBeforeDigits(data: seq<CodeUnit>, i: nat, s: Sign, run: seq<CodeUnit>, tail: seq<CodeUnit>)
    requires i <= |data| && data[i..] == SignText(s) + (run + tail) && AllDigits(run) && run != []
    ensures i + |SignText(s)| <= |data| && SignAt(data, i) == (s == Negative, i + |SignText(s)|)
    ensures data[i + |SignText(s)|..] == run + tail
  {
    assert (run + tail)[0] == run[0];
    SignOfPrefix(data, i, s, run + tail);
    Split(data, i, SignText(s), run + tail);
  }

  /** The exponent section assembled from the mark, the sign and the digit span after them. */
  lemma ExponentOfSections(data: seq<CodeUnit>, i: nat, negative: bool, j: nat, span: Lexed<DigitSpan>)
    requires i < |data| && IsExponentMark(CurAt(data, i)) && SignAt(data, i + 1) == (negative, j)
    requires j <= |data| && DigitSpanAt(data, j) == span
    ensures ExponentAt(data, i) == (negative, span)
  {
  }

  /** The exponent section when there is one: the mark, the sign and at least one digit. */
  lemma MarkedExponentOfPrefix(data: seq<CodeUnit>, i: nat, mark: CodeUnit, sign: Sign, digits: seq<CodeUnit>,
                               tail: seq<CodeUnit>) returns (end: nat)
    requires i <= |data| && data[i..] == [mark] + (SignText(sign) + (digits + tail))
    requires IsExponentMark(Some(mark)) && AllDigits(digits) && digits != []
    requires tail != [] ==> !IsDigit(tail[0]) && !IsWhitespace(tail[0])
    ensures end == i + 1 + |SignText(sign)| + |digits| && end <= |data|
    ensures ExponentAt(data, i) == (sign == Negative, Lexed(RunSpan(digits), end, []))
  {
    var j := i + 1 + |SignText(sign)|;
    UnitOfPrefix(data, i, mark, SignText(sign) + (digits + tail));
    SignBeforeDigits(data, i + 1, sign, digits, tail);
    DigitSpanOfPrefix(data, j, digits, tail);
    end := j + |digits|;
    ExponentOfSections(data, i, sign == Negative, j, Lexed(RunSpan(digits), end, []));
  }

  /** Reading the text at offset `i` as the code unit `c` followed by `tail`. */
  lemma UnitOfPrefix(data: seq<CodeUnit>, i: nat, c: CodeUnit, tail: seq<CodeUnit>)
    requires i <= |data| && data[i..] == [c] + tail
    ensures i < |data| && CurAt(data, i) == Some(c) && data[i + 1..] == tail
  {
    assert data[i] == data[i..][0];
    assert data[i + 1..] == data[i..][1..];
  }

  /** The first code unit of the exponent section and what follows it. */
  lemma HeadOfExponent(x: Option<Exponent>, rest: seq<CodeUnit>)
    requires Ends(rest)
    ensures var t := ExponentText(x) + rest;
      t != [] ==> (!IsDigit(t[0]) && !IsWhitespace(t[0]) && t[0] != Dot && t[0] != Minus && t[0] != Plus &&
                   (IsExponentMark(Some(t[0])) <==> x.Some?))
  {
    if x.Some? {
      assert (ExponentText(x) + rest)[0] == ExponentText(x)[0];
    } else {
      assert ExponentText(x) + rest == rest;
    }
  }

  /** The first code unit of the fraction section and what follows it. */
  lemma HeadOfFraction(frac: seq<CodeUnit>, x: Option<Exponent>, rest: seq<CodeUnit>)
    requires Ends(rest)
    ensures var t := FractionText(frac) + (ExponentText(x) + rest);
      t != [] ==> (!IsDigit(t[0]) && !IsWhitespace(t[0]) && t[0] != Minus && t[0] != Plus &&
                   (t[0] == Dot <==> frac != []))
  {
    HeadOfExponent(x, rest);
    if frac != [] {
      assert (FractionText(frac) + (ExponentText(x) + rest))[0] == Dot;
    } else {
      assert FractionText(frac) + (ExponentText(x) + rest) == ExponentText(x) + rest;
    }
  }

  /** The first code unit of the integer digits and what follows them. */
  lemma HeadOfWhole(whole: seq<CodeUnit>, t: seq<CodeUnit>)
    requires AllDigits(whole)
    requires t != [] ==> !IsDigit(t[0]) && !IsWhitespace(t[0]) && t[0] != Minus && t[0] != Plus
    ensures whole + t != [] ==> !IsWhitespace((whole + t)[0]) && (whole + t)[0] != Minus && (whole + t)[0] != Plus
  {
    if whole != [] {
      assert (whole + t)[0] == whole[0];
    } else {
      assert whole + t == t;
    }
  }

  /** `parseNumber` assembled from what its four sections read. */
  lemma NumberOfSections(data: seq<CodeUnit>, i: nat, negative: bool, a: nat, whole: DigitSpan, w: nat,
                         frac: DigitSpan, f: nat, expNegative: bool, exp: DigitSpan, e: nat)
    requires i <= |data| && SignAt(data, i) == (negative, a)
    requires a <= |data| && DigitSpanAt(data, a) == Lexed(whole, w, [])
    requires w <= |data| && FractionAt(data, w) == Lexed(frac, f, [])
    requires f <= |data| && ExponentAt(data, f) == (expNegative, Lexed(exp, e, []))
    ensures NumberAt(data, i) ==
      Lexed(if whole.count == 0 && frac.count == 0 && exp.count == 0 then None
            else Some(NumberParts(negative, whole.value.GetOr(0), whole.count, frac.value.GetOr(0), frac.count,
                                  expNegative, exp.value.GetOr(0), exp.count)), e, [])
  {
  }

  /**
   * `parseNumber` reads a numeral followed by anything it would not step over to its end, and
   * returns the numeral's parts; it returns `undefined` for the numeral without any digit.
   */
  lemma NumberOfNumeral(n: Numeral, rest: seq<CodeUnit>)
    requires WellFormed(n) && Ends(rest)
    ensures NumberAt(NumeralText(n) + rest, 0) ==
      Lexed(if n.whole == [] && n.frac == [] && n.exp.None? then None else Some(PartsOf(n)), |NumeralText(n)|, [])
  {
    var data := NumeralText(n) + rest;
    var a, w, f, e := SectionsOfNumeral(n, rest);
    NumberOfSections(data, 0, n.sign == Negative, a, RunSpan(n.whole), w, RunSpan(n.frac), f,
      n.exp.Some? && n.exp.value.sign == Negative, ExponentSpan(n.exp), e);
  }

  /** Where each section of a numeral ends, and what each section reads. */
  lemma SectionsOfNumeral(n: Numeral, rest: seq<CodeUnit>) returns (a: nat, w: nat, f: nat, e: nat)
    requires WellFormed(n) && Ends(rest)
    ensures e == |NumeralText(n)|
    ensures var data := NumeralText(n) + rest;
      a <= w <= f <= e &&
      SignAt(data, 0) == (n.sign == Negative, a) &&
      DigitSpanAt(data, a) == Lexed(RunSpan(n.whole), w, []) &&
      FractionAt(data, w) == Lexed(RunSpan(n.frac), f, []) &&
      ExponentAt(data, f) == (n.exp.Some? && n.exp.value.sign == Negative, Lexed(ExponentSpan(n.exp), e, []))
  {
    var data := NumeralText(n) + rest;
    var S, W, F, X := SignText(n.sign), n.whole, FractionText(n.frac), ExponentText(n.exp);
    var t2 := F + (X + rest);
    NumeralTextShape(n, rest);
    a, w := |S|, |S| + |W|;
    HeadOfFraction(n.frac, n.exp, rest);
    SignAndWholeOfPrefix(data, n.sign, W, t2);
    f, e := FractionAndExponentOfPrefix(data, w, n.frac, n.exp, rest);
  }

  /** The text of a numeral, taken apart into its sections. */
  lemma NumeralTextShape(n: Numeral, rest: seq<CodeUnit>)
    ensures var data := NumeralText(n) + rest;
      data[0..] == SignText(n.sign) + (n.whole + (FractionText(n.frac) + (ExponentText(n.exp) + rest))) &&
      |NumeralText(n)| == |SignText(n.sign)| + |n.whole| + |FractionText(n.frac)| + |ExponentText(n.exp)|
  {
    assert (NumeralText(n) + rest)[0..] == NumeralText(n) + rest;
  }

  /** The sign and the integer digits at the start of the text. */
  lemma SignAndWholeOfPrefix(data: seq<CodeUnit>, s: Sign, whole: seq<CodeUnit>, tail: seq<CodeUnit>)
    requires data[0..] == SignText(s) + (whole + tail) && AllDigits(whole)
    requires tail != [] ==> !IsDigit(tail[0]) && !IsWhitespace(tail[0]) && tail[0] != Minus && tail[0] != Plus
    ensures var a := |SignText(s)|;
      a + |whole| <= |data| &&
      SignAt(data, 0) == (s == Negative, a) &&
      DigitSpanAt(data, a) == Lexed(RunSpan(whole), a + |whole|, []) &&
      data[a + |whole|..] == tail
  {
    var a := |SignText(s)|;
    HeadOfWhole(whole, tail);
    SignOfPrefix(data, 0, s, whole + tail);
    Split(data, 0, SignText(s), whole + tail);
    DigitSpanOfPrefix(data, a, whole, tail);
    Split(data, a, whole, tail);
  }

  /** The fraction and the exponent sections of a numeral, from offset `w` on. */
  lemma FractionAndExponentOfPrefix(data: seq<CodeUnit>, w: nat, frac: seq<CodeUnit>, x: Option<Exponent>, rest: seq<CodeUnit>)
    returns (f: nat, e: nat)
    requires w <= |data| && data[w..] == FractionText(frac) + (ExponentText(x) + rest)
    requires AllDigits(frac) && (x.Some? ==> AllDigits(x.value.digits) && x.value.digits != [])
    requires Ends(rest)
    ensures f == w + |FractionText(frac)| && e == f + |ExponentText(x)| && e <= |data|
    ensures FractionAt(data, w) == Lexed(RunSpan(frac), f, [])
    ensures ExponentAt(data, f) == (x.Some? && x.value.sign == Negative, Lexed(ExponentSpan(x), e, []))
  {
    HeadOfExponent(x, rest);
    f := FractionOfPrefix(data, w, frac, ExponentText(x) + rest);
    e := ExponentOfPrefix(data, f, x, rest);
  }

  /**
   * `-1.5`: the lexer reads the sign, the integer part 1 and the fraction 5 with one digit. The
   * formula as written gives -1 + 0.5 = -0.5; the numeral denotes -1.5.
   */
  lemma NegativeFractionAsWritten()
    ensures var r := NumberAt([Minus, '1' as CodeUnit, Dot, '5' as CodeUnit], 0);
      r.end == 4 && r.value.Some? && Value(r.value.value) == -0.5 && SignedValue(r.value.value) == -1.5
  {
    var n := Numeral(Negative, ['1' as CodeUnit], ['5' as CodeUnit], None);
    assert NumeralText(n) + [] == [Minus, '1' as CodeUnit, Dot, '5' as CodeUnit];
    NumberOfNumeral(n, []);
    assert DecimalValue(n.whole) == 1 by { assert n.whole[..0] == []; }
    assert DecimalValue(n.frac) == 5 by { assert n.frac[..0] == []; }
    var p := PartsOf(n);
    assert p == NumberParts(true, 1, 1, 5, 1, false, 0, 0);
    assert Pow(1) == 10;
    assert Pow10(-1) == 0.1;
    assert Value(p) == Scaled(-5, -1);
    assert SignedValue(p) == Scaled(-15, -1);
  }

  /** The text `1234`. */
  function Digits1234(): seq<CodeUnit> {
    ['1' as CodeUnit, '2' as CodeUnit, '3' as CodeUnit, '4' as CodeUnit]
  }

  lemma DecimalValueOf1234()
    ensures AllDigits(Digits1234()) && DecimalValue(Digits1234()) == 1234
  {
    var w := Digits1234();
    assert w[..1][..0] == [] && w[..2][..1] == w[..1] && w[..3][..2] == w[..2] && w[..4][..3] == w[..3] && w[..4] == w;
    assert DecimalValue(w[..1]) == 1;
    assert DecimalValue(w[..2]) == 12;
    assert DecimalValue(w[..3]) == 123;
  }

  /** `1234` is read as the integer part 1234 of four digits, worth 1234. */
  lemma TwelveThirtyFour()
    ensures var p := NumberParts(false, 1234, 4, 0, 0, false, 0, 0);
      NumberAt(Digits1234(), 0) == Lexed(Some(p), 4, []) && Value(p) == 1234.0
  {
    var n := Numeral(Unsigned, Digits1234(), [], None);
    DecimalValueOf1234();
    assert NumeralText(n) + [] == Digits1234();
    NumberOfNumeral(n, []);
    assert Pow(0) == 1;
  }

  /** `3e2` is read as the integer part 3 and the exponent 2, worth 300. */
  lemma ThreeHundred()
    ensures var p := NumberParts(false, 3, 1, 0, 0, false, 2, 1);
      NumberAt(['3' as CodeUnit, LowerE, '2' as CodeUnit], 0) == Lexed(Some(p), 3, []) && Value(p) == 300.0
  {
    var n := Numeral(Unsigned, ['3' as CodeUnit], [], Some(Exponent(false, Unsigned, ['2' as CodeUnit])));
    assert NumeralText(n) + [] == ['3' as CodeUnit, LowerE, '2' as CodeUnit];
    NumberOfNumeral(n, []);
    assert DecimalValue(n.whole) == 3 by { assert n.whole[..0] == []; }
    assert DecimalValue(n.exp.value.digits) == 2 by { assert n.exp.value.digits[..0] == []; }
    assert Pow(0) == 1;
    assert Pow10(2) == 100.0;
  }

  /** `.5e-2` is read as the fraction 5 of one digit and the exponent -2, worth 0.005. */
  lemma FiveThousandths()
    ensures var p := NumberParts(false, 0, 0, 5, 1, true, 2, 1);
      NumberAt([Dot, '5' as CodeUnit, LowerE, Minus, '2' as CodeUnit], 0) == Lexed(Some(p), 5, []) &&
      Value(p) == 0.005
  {
    var n := Numeral(Unsigned, [], ['5' as CodeUnit], Some(Exponent(false, Negative, ['2' as CodeUnit])));
    assert NumeralText(n) + [] == [Dot, '5' as CodeUnit, LowerE, Minus, '2' as CodeUnit];
    NumberOfNumeral(n, []);
    assert DecimalValue(n.frac) == 5 by { assert n.frac[..0] == []; }
    assert DecimalValue(n.exp.value.digits) == 2 by { assert n.exp.value.digits[..0] == []; }
    assert Pow10(-3) == 0.001;
  }
}
