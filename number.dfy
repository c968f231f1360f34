/**
 * `parseNumber`: an optional sign, an integer digit span, a `.` fraction span and an `e`/`E`
 * exponent with its own optional sign. The result is kept as its exact components; the final
 * conversion to a double is replaced by an exact `real` interpretation.
 */
module Numbers {
  import opened Wrappers
  import opened CodeUnits
  import opened Text
  import opened Cursor
  import opened DigitSpans

  /**
   * The components `parseNumber` combines: the sign (`mul` is -1 exactly when `negative`), the
   * integer part, the fraction digits read as an integer and their count, the exponent sign
   * (`expMul`) and the exponent. The digit counts of the integer part and the exponent are kept
   * too; a missing part reads as 0.
   */
  datatype NumberParts = NumberParts(
    negative: bool, intPart: nat, intDigits: nat,
    frac: nat, fracDigits: nat,
    expNegative: bool, exp: nat, expDigits: nat)

  /** Multiplication by a sign factor that is -1 when `negative` and 1 otherwise. */
  function Negate(negative: bool, m: int): int {
    if negative then -m else m
  }

  /** An optional `-` or `+`, each followed by skipped whitespace: whether it was `-`, and where it ends. */
  function SignAt(data: seq<CodeUnit>, i: nat): (r: (bool, nat))
    requires i <= |data|
    ensures i <= r.1 <= |data|
    ensures r.0 <==> CurAt(data, i) == Some(Minus)
    ensures r.1 > i <==> CurAt(data, i) == Some(Minus) || CurAt(data, i) == Some(Plus)
    ensures r.1 > i ==> (forall k | i < k < r.1 :: IsWhitespace(data[k])) && (r.1 < |data| ==> !IsWhitespace(data[r.1]))
  {
    if CurAt(data, i) == Some(Minus) then (true, SkipWs(data, i + 1))
    else if CurAt(data, i) == Some(Plus) then (false, SkipWs(data, i + 1))
    else (false, i)
  }

  predicate IsExponentMark(c: Option<CodeUnit>) {
    c == Some(LowerE) || c == Some(UpperE)
  }

  /** What `parseNumber` returns (no value is the source's `undefined`) and where it leaves the cursor. */
  function NumberAt(data: seq<CodeUnit>, i: nat): (r: Lexed<Option<NumberParts>>)
    requires i <= |data|
    ensures i <= r.end <= |data| && r.errors == []
  {
    var (negative, a) := SignAt(data, i);
    var whole := DigitSpanAt(data, a);
    var frac := FractionAt(data, whole.end);
    var (expNegative, exp) := ExponentAt(data, frac.end);
    var parts := NumberParts(
      negative, whole.value.value.GetOr(0), whole.value.count,
      frac.value.value.GetOr(0), frac.value.count,
      expNegative, exp.value.value.GetOr(0), exp.value.count);
    if whole.value.count == 0 && frac.value.count == 0 && exp.value.count == 0 then Lexed(None, exp.end, [])
    else Lexed(Some(parts), exp.end, [])
  }

  /** The fraction: a `.` and the digit span after it, or no digits without moving. */
  function FractionAt(data: seq<CodeUnit>, i: nat): (r: Lexed<DigitSpan>)
    requires i <= |data|
    ensures i <= r.end <= |data| && r.errors == []
  {
    if CurAt(data, i) == Some(Dot) then DigitSpanAt(data, i + 1) else Lexed(NoDigits, i, [])
  }

  /** The exponent: `e` or `E`, an optional sign and a digit span; without the mark, no sign and no digits. */
  function ExponentAt(data: seq<CodeUnit>, i: nat): (r: (bool, Lexed<DigitSpan>))
    requires i <= |data|
    ensures i <= r.1.end <= |data| && r.1.errors == []
  {
    if IsExponentMark(CurAt(data, i)) then
      var (expNegative, b) := SignAt(data, i + 1);
      (expNegative, DigitSpanAt(data, b))
    else (false, Lexed(NoDigits, i, []))
  }

  /** The sign handling `parseNumber` does twice, before the integer part and after `e`. */
  method ConsumeSign(ctx: Ctx) returns (negative: bool)
    requires ctx.Valid()
    modifies ctx`pos
    ensures ctx.Valid()
    ensures (negative, ctx.pos.idx) == SignAt(ctx.data, old(ctx.pos.idx))
  {
    negative := false;
    var minus := ctx.Consume(Minus);
    if minus {
      negative := true;
      ctx.SkipWhitespace();
    } else {
      var plus := ctx.Consume(Plus);
      if plus {
        ctx.SkipWhitespace();
      }
    }
  }

  /** The fraction section of `parseNumber`. */
  method ParseFraction(ctx: Ctx) returns (frac: DigitSpan)
    requires ctx.Valid()
    modifies ctx`pos
    ensures ctx.Valid()
    ensures Lexed(frac, ctx.pos.idx, []) == FractionAt(ctx.data, old(ctx.pos.idx))
  {
    frac := NoDigits;
    var dot := ctx.Consume(Dot);
    if dot {
      frac := ParseDigitSpan(ctx);
    }
  }

  /** The exponent section of `parseNumber`. */
  method ParseExponent(ctx: Ctx) returns (expNegative: bool, exp: DigitSpan)
    requires ctx.Valid()
    modifies ctx`pos
    ensures ctx.Valid()
    ensures (expNegative, Lexed(exp, ctx.pos.idx, [])) == ExponentAt(ctx.data, old(ctx.pos.idx))
  {
    expNegative, exp := false, NoDigits;
    if IsExponentMark(ctx.Cur()) {
      ctx.Next();
      expNegative := ConsumeSign(ctx);
      exp := ParseDigitSpan(ctx);
    }
  }

  method ParseNumber(ctx: Ctx) returns (r: Option<NumberParts>)
    requires ctx.Valid()
    modifies ctx`pos
    ensures ctx.Valid()
    ensures Lexed(r, ctx.pos.idx, []) == NumberAt(ctx.data, old(ctx.pos.idx))
  {
    var negative := ConsumeSign(ctx);
    var whole := ParseDigitSpan(ctx);
    var frac := ParseFraction(ctx);
    var expNegative, exp := ParseExponent(ctx);
    if whole.count == 0 && frac.count == 0 && exp.count == 0 {
      return None;
    }
    return Some(NumberParts(negative, whole.value.GetOr(0), whole.count, frac.value.GetOr(0), frac.count,
                            expNegative, exp.value.GetOr(0), exp.count));
  }

  /** `10^e` for a natural exponent. */
  function Pow(e: nat): (r: nat)
    ensures r > 0
  {
    if e == 0 then 1 else 10 * Pow(e - 1)
  }

  /** `Math.pow(10, e)` for an integer exponent, computed exactly. */
  function Pow10(e: int): (r: real)
    ensures r > 0.0
    decreases if e >= 0 then e else -e
  {
    if e == 0 then 1.0
    else if e > 0 then 10.0 * Pow10(e - 1)
    else Pow10(e + 1) / 10.0
  }

  /** `m * 10^e`, exactly. */
  function Scaled(m: int, e: int): real {
    m as real * Pow10(e)
  }

  /** Scaling by a power of ten loses nothing: equal scales give equal values only for equal integers. */
  lemma ScaledInjective(a: int, b: int, e: int)
    ensures Scaled(a, e) == Scaled(b, e) <==> a == b
  {
    var p := Pow10(e);
    assert Scaled(a, e) == a as real * p;
    assert Scaled(b, e) == b as real * p;
  }

  /** `finalExp`: the power of ten `parseNumber` scales by, `expMul * exp`. */
  function FinalExponent(n: NumberParts): int {
    Negate(n.expNegative, n.exp)
  }

  /**
   * The value `parseNumber` computes from the parts, exactly: `mul * accum * 10^e + frac *
   * 10^(e - fracSize)` with `e = expMul * exp`, written over the common factor `10^(e - fracSize)`.
   * The sign multiplies the integer term only.
   */
  function Value(n: NumberParts): real {
    Scaled(Negate(n.negative, n.intPart * Pow(n.fracDigits)) + n.frac, FinalExponent(n) - n.fracDigits)
  }

  /** The value with the sign applied to the fraction as well: what a signed decimal numeral denotes. */
  function SignedValue(n: NumberParts): real {
    Scaled(Negate(n.negative, n.intPart * Pow(n.fracDigits) + n.frac), FinalExponent(n) - n.fracDigits)
  }

  /** Raising the exponent by one multiplies by ten, on either side of zero. */
  lemma Pow10Step(e: int)
    ensures Pow10(e + 1) == 10.0 * Pow10(e)
  {
    if e < 0 {
      assert Pow10(e) == Pow10(e + 1) / 10.0;
    }
  }

  /** The two powers of ten agree: `10^(e + k)` is `10^e` times the natural `10^k`. */
  lemma {:induction false} Pow10Shift(e: int, k: nat)
    ensures Pow10(e + k) == Pow10(e) * Pow(k) as real
  {
    if k > 0 {
      var x, y := Pow10(e), Pow(k - 1) as real;
      Pow10Shift(e, k - 1);
      Pow10Step(e + k - 1);
      calc {
        Pow10(e + k);
        10.0 * Pow10(e + k - 1);
        10.0 * (x * y);
        x * (10.0 * y);
        x * Pow(k) as real;
      }
    }
  }

  /** Scaling distributes over a sum. */
  lemma ScaledAdd(x: int, y: int, a: int)
    ensures Scaled(x + y, a) == Scaled(x, a) + Scaled(y, a)
  {
    var p := Pow10(a);
    assert (x + y) as real * p == x as real * p + y as real * p;
  }

  /** `m * 10^k` scaled by `10^a` is `m` scaled by `10^(a + k)`: the common factor taken out again. */
  lemma ScaledShift(m: int, k: nat, a: int)
    ensures Scaled(m * Pow(k), a) == Scaled(m, a + k)
  {
    var x, y, p := m as real, Pow(k) as real, Pow10(a);
    Pow10Shift(a, k);
    assert (m * Pow(k)) as real == x * y;
    assert (x * y) * p == x * (p * y);
  }

  /**
   * The value as written is the two-term sum of the source: `mul * accum * 10^e` plus
   * `frac * 10^(e - fracSize)`, with `e = expMul * exp`.
   */
  lemma ValueShape(n: NumberParts)
    ensures Value(n) ==
      Scaled(Negate(n.negative, n.intPart), FinalExponent(n)) + Scaled(n.frac, FinalExponent(n) - n.fracDigits)
  {
    var m, k, a := Negate(n.negative, n.intPart), n.fracDigits, FinalExponent(n) - n.fracDigits;
    assert Negate(n.negative, n.intPart * Pow(k)) == m * Pow(k);
    ScaledAdd(m * Pow(k), n.frac, a);
    ScaledShift(m, k, a);
  }

  /** The signed value is the same sum with the sign on the fraction term as well. */
  lemma SignedValueShape(n: NumberParts)
    ensures SignedValue(n) ==
      Scaled(Negate(n.negative, n.intPart), FinalExponent(n)) + Scaled(Negate(n.negative, n.frac), FinalExponent(n) - n.fracDigits)
  {
    var m, k, a := Negate(n.negative, n.intPart), n.fracDigits, FinalExponent(n) - n.fracDigits;
    assert Negate(n.negative, n.intPart * Pow(k) + n.frac) == m * Pow(k) + Negate(n.negative, n.frac);
    ScaledAdd(m * Pow(k), Negate(n.negative, n.frac), a);
    ScaledShift(m, k, a);
  }
}
