/** `parseDigitSpan`: a run of decimal digits, with whitespace between the digits skipped. */
module DigitSpans {
  import opened Wrappers
  import opened CodeUnits
  import opened Text
  import opened Cursor

  /** The pair the source returns: the value read (absent when no digit was read) and the digit count. */
  datatype DigitSpan = DigitSpan(value: Option<nat>, count: nat)

  const NoDigits := DigitSpan(None, 0)

  function DigitAt(data: seq<CodeUnit>, i: nat): Option<nat> {
    match CurAt(data, i)
    case None => None
    case Some(c) => DigitValue(c)
  }

  /** The loop of `parseDigitSpan` from offset `i`, with the running accumulator and digit count. */
  function DigitLoop(data: seq<CodeUnit>, i: nat, accum: nat, count: nat): (r: Lexed<DigitSpan>)
    requires i <= |data|
    ensures i <= r.end <= |data| && r.errors == [] && r.value.value.Some?
    decreases |data| - i
  {
    match DigitAt(data, i)
    case None => Lexed(DigitSpan(Some(accum), count), i, [])
    case Some(d) => DigitLoop(data, SkipWs(data, i + 1), accum * 10 + d, count + 1)
  }

  /** What `parseDigitSpan` returns and where it leaves the cursor. */
  function DigitSpanAt(data: seq<CodeUnit>, i: nat): (r: Lexed<DigitSpan>)
    requires i <= |data|
    ensures i <= r.end <= |data| && r.errors == []
  {
    if DigitAt(data, i).None? then Lexed(NoDigits, i, []) else DigitLoop(data, i, 0, 0)
  }

  method ParseDigitSpan(ctx: Ctx) returns (span: DigitSpan)
    requires ctx.Valid()
    modifies ctx`pos
    ensures ctx.Valid()
    ensures Lexed(span, ctx.pos.idx, []) == DigitSpanAt(ctx.data, old(ctx.pos.idx))
  {
    var first := ctx.Cur();
    if first.None? || DigitValue(first.value).None? {
      return NoDigits;
    }
    var accum: nat, numDigits: nat := 0, 0;
    while true
      invariant ctx.Valid()
      invariant DigitLoop(ctx.data, ctx.pos.idx, accum, numDigits) == DigitSpanAt(ctx.data, old(ctx.pos.idx))
      decreases |ctx.data| - ctx.pos.idx
    {
      var cur := ctx.Cur();
      if cur.None? || DigitValue(cur.value).None? {
        break;
      }
      accum := accum * 10 + DigitValue(cur.value).value;
      numDigits := numDigits + 1;
      ctx.Next();
      ctx.SkipWhitespace();
    }
    return DigitSpan(Some(accum), numDigits);
  }

  predicate DigitsOrWhitespace(s: seq<CodeUnit>) {
    forall k | 0 <= k < |s| :: IsDigit(s[k]) || IsWhitespace(s[k])
  }

  /** Past the end of a span sits a code unit that is neither a digit nor whitespace, or nothing. */
  predicate StopsAt(data: seq<CodeUnit>, i: nat) {
    i < |data| ==> !IsDigit(data[i]) && !IsWhitespace(data[i])
  }

  lemma {:induction false} DigitLoopStops(data: seq<CodeUnit>, i: nat, accum: nat, count: nat)
    requires i <= |data|
    requires i < |data| ==> !IsWhitespace(data[i])
    ensures var e := DigitLoop(data, i, accum, count).end;
      DigitsOrWhitespace(data[i..e]) && StopsAt(data, e)
    decreases |data| - i
  {
    if DigitAt(data, i).Some? {
      var d := DigitAt(data, i).value;
      var q := SkipWs(data, i + 1);
      DigitLoopStops(data, q, accum * 10 + d, count + 1);
      var e := DigitLoop(data, q, accum * 10 + d, count + 1).end;
      assert DigitLoop(data, i, accum, count).end == e;
      forall k | 0 <= k < e - i
        ensures IsDigit(data[i..e][k]) || IsWhitespace(data[i..e][k])
      {
        if k >= q - i {
          assert data[i..e][k] == data[q..e][k - (q - i)];
        }
      }
    }
  }

  /** The digits read by one iteration: the digit at `i`, then only whitespace up to `q`. */
  lemma StripAfterDigit(data: seq<CodeUnit>, i: nat, q: nat, e: nat)
    requires i < q <= e <= |data| && IsDigit(data[i])
    requires forall k | i + 1 <= k < q :: IsWhitespace(data[k])
    ensures StripWhitespace(data[i..e]) == [data[i]] + StripWhitespace(data[q..e])
  {
    var gap, rest := data[i + 1..q], data[q..e];
    StripWhitespaceOfAllWhitespace(gap);
    StripWhitespaceOfNoWhitespace([data[i]]);
    StripWhitespaceAppend([data[i]], gap);
    assert [data[i]] + gap + rest == data[i..e];
    StripWhitespaceAppend([data[i]] + gap, rest);
  }

  lemma {:induction false} DigitLoopValue(data: seq<CodeUnit>, i: nat, done: seq<CodeUnit>)
    requires i <= |data| && AllDigits(done)
    ensures var r := DigitLoop(data, i, DecimalValue(done), |done|);
      var digits := done + StripWhitespace(data[i..r.end]);
      AllDigits(digits) && r.value == DigitSpan(Some(DecimalValue(digits)), |digits|)
    decreases |data| - i
  {
    var r := DigitLoop(data, i, DecimalValue(done), |done|);
    if DigitAt(data, i).None? {
      assert data[i..r.end] == [];
      assert done + StripWhitespace(data[i..r.end]) == done;
    } else {
      var c := data[i];
      var q := SkipWs(data, i + 1);
      DecimalValueSnoc(done, c);
      assert r == DigitLoop(data, q, DecimalValue(done + [c]), |done + [c]|);
      DigitLoopValue(data, q, done + [c]);
      StripAfterDigit(data, i, q, r.end);
      assert done + [c] + StripWhitespace(data[q..r.end]) == done + StripWhitespace(data[i..r.end]);
    }
  }

  /**
   * `parseDigitSpan` with no digit at the cursor returns no value and does not move. Otherwise
   * it reads digits and whitespace only, stops at the first code unit that is neither (or at end
   * of input), and returns the decimal value of the digits it read and how many there were.
   */
  lemma DigitSpanReads(data: seq<CodeUnit>, i: nat)
    requires i <= |data|
    ensures DigitAt(data, i).None? ==> DigitSpanAt(data, i) == Lexed(NoDigits, i, [])
    ensures var r := DigitSpanAt(data, i);
      var digits := StripWhitespace(data[i..r.end]);
      DigitAt(data, i).Some? ==>
        DigitsOrWhitespace(data[i..r.end]) && StopsAt(data, r.end) &&
        AllDigits(digits) && r.value == DigitSpan(Some(DecimalValue(digits)), |digits|) && |digits| > 0
  {
    if DigitAt(data, i).Some? {
      DigitLoopStops(data, i, 0, 0);
      DigitLoopValue(data, i, []);
      var r := DigitSpanAt(data, i);
      var read := data[i..r.end];
      assert [] + StripWhitespace(read) == StripWhitespace(read);
      assert read == [data[i]] + read[1..];
      StripWhitespaceAppend([data[i]], read[1..]);
    }
  }

  /** A text that starts with a digit and holds only digits and whitespace is read to its end. */
  lemma DigitSpanOfDigitsAndWhitespace(s: seq<CodeUnit>)
    requires s != [] && IsDigit(s[0]) && DigitsOrWhitespace(s)
    ensures AllDigits(StripWhitespace(s))
    ensures DigitSpanAt(s, 0) == Lexed(DigitSpan(Some(DecimalValue(StripWhitespace(s))), |StripWhitespace(s)|), |s|, [])
  {
    DigitSpanReads(s, 0);
    var r := DigitSpanAt(s, 0);
    assert s[0..r.end] == s;
  }

  /** Reading the decimal text of a natural number gives that number back, with one count per digit. */
  lemma DigitSpanOfDecimalText(n: nat)
    ensures DigitSpanAt(DecimalText(n), 0) == Lexed(DigitSpan(Some(n), |DecimalText(n)|), |DecimalText(n)|, [])
  {
    var s := DecimalText(n);
    DigitSpanOfDigitsAndWhitespace(s);
    StripWhitespaceOfNoWhitespace(s);
    DecimalTextRoundTrip(n);
  }

  /** A span started on a run of digits ends exactly where the run does, when nothing readable follows it. */
  lemma DigitSpanEndOfRun(data: seq<CodeUnit>, i: nat, run: seq<CodeUnit>)
    requires i + |run| <= |data| && data[i..i + |run|] == run && AllDigits(run)
    requires run != [] && StopsAt(data, i + |run|)
    ensures DigitSpanAt(data, i).end == i + |run|
  {
    var j := i + |run|;
    forall k | i <= k < j
      ensures IsDigit(data[k])
    {
      assert data[k] == run[k - i];
    }
    DigitSpanReads(data, i);
  }

  /** Reading exactly a run of digits gives its decimal value and its length. */
  lemma DigitSpanValueOfRun(data: seq<CodeUnit>, i: nat, run: seq<CodeUnit>)
    requires i + |run| <= |data| && data[i..i + |run|] == run && AllDigits(run)
    requires run != [] && DigitSpanAt(data, i).end == i + |run|
    ensures DigitSpanAt(data, i).value == DigitSpan(Some(DecimalValue(run)), |run|)
  {
    assert data[i] == run[0];
    DigitSpanReads(data, i);
    assert data[i..DigitSpanAt(data, i).end] == run;
    forall k | 0 <= k < |run|
      ensures !IsWhitespace(run[k])
    {
      assert IsDigit(run[k]);
    }
    StripWhitespaceOfNoWhitespace(run);
  }

  /** A run of digits ended by a code unit that is neither digit nor whitespace is read exactly. */
  lemma DigitSpanOfRun(data: seq<CodeUnit>, i: nat, run: seq<CodeUnit>)
    requires i + |run| <= |data| && data[i..i + |run|] == run && AllDigits(run)
    requires StopsAt(data, i + |run|)
    ensures DigitSpanAt(data, i) ==
      Lexed(if run == [] then NoDigits else DigitSpan(Some(DecimalValue(run)), |run|), i + |run|, [])
  {
    if run == [] {
      assert DigitAt(data, i).None?;
    } else {
      DigitSpanEndOfRun(data, i, run);
      DigitSpanValueOfRun(data, i, run);
    }
  }

  /** The digit count `parseDigitSpan` returns is the number of digits in the text it stepped over. */
  lemma DigitSpanCount(data: seq<CodeUnit>, i: nat)
    requires i <= |data|
    ensures DigitSpanAt(data, i).value.count == CountDigits(data[i..DigitSpanAt(data, i).end])
  {
    DigitSpanReads(data, i);
    var r := DigitSpanAt(data, i);
    if DigitAt(data, i).None? {
      assert data[i..r.end] == [];
    } else {
      CountDigitsOfStrip(data[i..r.end]);
    }
  }
}
