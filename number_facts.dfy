/** Properties of `parseNumber`: when it reads nothing, which numerals it reads, and what they are worth. */
module NumberFacts {
  import opened Wrappers
  import opened CodeUnits
  import opened Text
  import opened Cursor
  import opened DigitSpans
  import opened Numbers

  /** The digits in `data[i..k]` are those in `data[i..j]` and in `data[j..k]`. */
  lemma CountDigitsSplit(data: seq<CodeUnit>, i: nat, j: nat, k: nat)
    requires i <= j <= k <= |data|
    ensures CountDigits(data[i..k]) == CountDigits(data[i..j]) + CountDigits(data[j..k])
  {
    assert data[i..k] == data[i..j] + data[j..k];
    CountDigitsAppend(data[i..j], data[j..k]);
  }

  /** A sign and the whitespace after it hold no digit. */
  lemma SignHasNoDigits(data: seq<CodeUnit>, i: nat)
    requires i <= |data|
    ensures CountDigits(data[i..SignAt(data, i).1]) == 0
  {
    var j := SignAt(data, i).1;
    forall k | 0 <= k < j - i
      ensures !IsDigit(data[i..j][k])
    {
      assert data[i..j][k] == data[i + k];
    }
    CountDigitsZero(data[i..j]);
  }

  lemma FractionCount(data: seq<CodeUnit>, i: nat)
    requires i <= |data|
    ensures FractionAt(data, i).value.count == CountDigits(data[i..FractionAt(data, i).end])
  {
    var f := FractionAt(data, i).end;
    if CurAt(data, i) == Some(Dot) {
      DigitSpanCount(data, i + 1);
      CountDigitsSplit(data, i, i + 1, f);
      assert data[i..i + 1] == [Dot];
    } else {
      assert data[i..f] == [];
    }
  }

  lemma ExponentCount(data: seq<CodeUnit>, i: nat)
    requires i <= |data|
    ensures ExponentAt(data, i).1.value.count == CountDigits(data[i..ExponentAt(data, i).1.end])
  {
    var x := ExponentAt(data, i).1.end;
    if IsExponentMark(CurAt(data, i)) {
      var b := SignAt(data, i + 1).1;
      DigitSpanCount(data, b);
      SignHasNoDigits(data, i + 1);
      CountDigitsSplit(data, i, i + 1, x);
      CountDigitsSplit(data, i + 1, b, x);
      assert data[i..i + 1] == [data[i]];
    } else {
      assert data[i..x] == [];
    }
  }

  /**
   * `parseNumber` returns `undefined` exactly when the text it stepped over holds no digit;
   * otherwise every digit it stepped over is counted in exactly one of the three parts.
   */
  lemma NumberDigits(data: seq<CodeUnit>, i: nat)
    requires i <= |data|
    ensures var r := NumberAt(data, i);
      (r.value.None? <==> CountDigits(data[i..r.end]) == 0) &&
      (r.value.Some? ==> CountDigits(data[i..r.end]) == r.value.value.intDigits + r.value.value.fracDigits + r.value.value.expDigits)
  {
    var a := SignAt(data, i).1;
    var w := DigitSpanAt(data, a).end;
    var f := FractionAt(data, w).end;
    var e := ExponentAt(data, f).1.end;
    SignHasNoDigits(data, i);
    DigitSpanCount(data, a);
    FractionCount(data, w);
    ExponentCount(data, f);
    CountDigitsSplit(data, i, a, e);
    CountDigitsSplit(data, a, w, e);
    CountDigitsSplit(data, w, f, e);
  }

  /** The code units `parseNumber` can start on: a digit, a sign, a point or an exponent mark. */
  predicate StartsNumber(c: CodeUnit) {
    IsDigit(c) || c == Minus || c == Plus || c == Dot || c == LowerE || c == UpperE
  }

  /**
   * `parseNumber` moves the cursor exactly when the current code unit can start a number; when
   * it does not move, it returns `undefined`.
   */
  lemma NumberMoves(data: seq<CodeUnit>, i: nat)
    requires i <= |data|
    ensures NumberAt(data, i).end > i <==> i < |data| && StartsNumber(data[i])
    ensures NumberAt(data, i).end == i ==> NumberAt(data, i).value.None?
  {
    var a := SignAt(data, i).1;
    var w := DigitSpanAt(data, a).end;
    var f := FractionAt(data, w).end;
    if i < |data| && IsDigit(data[i]) && a == i {
      DigitSpanReads(data, i);
      assert DigitAt(data, i).Some?;
    }
    if DigitSpanAt(data, a).value.count != 0 {
      DigitSpanReads(data, a);
    }
  }

  /**
   * Digits with whitespace between them read as a number worth the digits with the whitespace
   * removed: the whole text is the integer part, with no sign, fraction or exponent.
   */
  lemma NumberOfDigitsAndWhitespace(s: seq<CodeUnit>)
    requires s != [] && IsDigit(s[0]) && DigitsOrWhitespace(s)
    ensures AllDigits(StripWhitespace(s))
    ensures var d := StripWhitespace(s); var p := NumberParts(false, DecimalValue(d), |d|, 0, 0, false, 0, 0);
      NumberAt(s, 0) == Lexed(Some(p), |s|, []) && Value(p) == DecimalValue(d) as real
  {
    DigitSpanOfDigitsAndWhitespace(s);
    assert SignAt(s, 0) == (false, 0);
    assert FractionAt(s, |s|) == Lexed(NoDigits, |s|, []);
    assert ExponentAt(s, |s|) == (false, Lexed(NoDigits, |s|, []));
    assert Pow(0) == 1;
    assert Pow10(0) == 1.0;
  }
}
