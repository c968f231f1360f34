/**
 * What `parseString` reads: text without backslashes (trimmed when unquoted, verbatim between
 * quotes), and how far an escape moves the cursor and which errors it records.
 */
module StringFacts {
  import opened Wrappers
  import opened CodeUnits
  import opened Text
  import opened Cursor
  import opened Strings

  lemma AppendAssoc(a: seq<CodeUnit>, b: seq<CodeUnit>, c: seq<CodeUnit>)
    ensures a + (b + c) == (a + b) + c
  {
  }

  /**
   * The scan state after plain text (no backslash, no closing quote) from the state with text
   * `res` and held-back whitespace `pending`: everything up to the last code unit that is not
   * whitespace has been written out, and the whitespace after it is held back.
   */
  function AfterPlain(res: seq<CodeUnit>, pending: seq<CodeUnit>, text: seq<CodeUnit>): Scan {
    var u := pending + text;
    var t := TrimEnd(u);
    Scan(res + t, u[|t|..], false)
  }

  /** Plain text only moves code units between the written text and the held-back whitespace. */
  lemma AfterPlainKeepsText(res: seq<CodeUnit>, pending: seq<CodeUnit>, text: seq<CodeUnit>)
    ensures var st := AfterPlain(res, pending, text); st.res + st.pending == res + pending + text
  {
    var u := pending + text;
    TrimEndShape(u);
    assert u[..|TrimEnd(u)|] + u[|TrimEnd(u)|..] == u;
    AppendAssoc(res, TrimEnd(u), u[|TrimEnd(u)|..]);
    AppendAssoc(res, pending, text);
  }

  lemma AfterNoText(res: seq<CodeUnit>, pending: seq<CodeUnit>)
    requires forall m | 0 <= m < |pending| :: IsWhitespace(pending[m])
    ensures AfterPlain(res, pending, []) == Scan(res, pending, false)
  {
    assert pending + [] == pending;
    TrimEndOfAllWhitespace(pending);
    assert res + [] == res;
  }

  lemma AfterWhitespace(res: seq<CodeUnit>, pending: seq<CodeUnit>, c: CodeUnit, v: seq<CodeUnit>)
    ensures AfterPlain(res, pending, [c] + v) == AfterPlain(res, pending + [c], v)
  {
    assert pending + ([c] + v) == (pending + [c]) + v;
  }

  /** Held-back whitespace followed by `c`, which is not whitespace, is written out. */
  lemma AfterOther(res: seq<CodeUnit>, pending: seq<CodeUnit>, c: CodeUnit, v: seq<CodeUnit>)
    requires !IsWhitespace(c)
    ensures AfterPlain(res, pending, [c] + v) == AfterPlain(res + pending + [c], [], v)
  {
    var a := pending + [c];
    assert pending + ([c] + v) == a + v;
    assert [] + v == v;
    TrimEndAfter(a, v);
    AppendAssoc(res, a, TrimEnd(v));
    assert res + pending + [c] == res + a;
    assert (a + v)[|a + TrimEnd(v)|..] == v[|TrimEnd(v)|..];
  }

  /** One step on a code unit that is neither a backslash nor, when quoted, a `"`. */
  lemma PlainStep(data: seq<CodeUnit>, quoted: bool, flush: bool, st: Scan, k: nat, errors: seq<ParseError>)
    requires k < |data| && !st.inEscape && data[k] != Backslash && !(quoted && data[k] == Quote)
    ensures var c := data[k];
      StringLoop(data, quoted, flush, Lexed(st, k, errors))
      == StringLoop(data, quoted, flush,
           Lexed(if IsWhitespace(c) then st.(pending := st.pending + [c]) else Scan(st.res + st.pending + [c], [], false),
                 k + 1, errors))
  {
    LoopUnfold(data, quoted, flush, st, k, errors);
    assert errors + [] == errors;
  }

  /**
   * A run of code units with no backslash (and, when quoted, no `"`) at offsets `k` to `e`: the
   * loop moves held-back whitespace into the text whenever something else follows it, so after
   * the run the text has grown by the run without its trailing whitespace, and that trailing
   * whitespace is what is held back.
   */
  lemma {:induction false} PlainRun(data: seq<CodeUnit>, quoted: bool, flush: bool, res: seq<CodeUnit>,
                                    pending: seq<CodeUnit>, k: nat, e: nat, errors: seq<ParseError>)
    requires k <= e <= |data|
    requires forall m | k <= m < e :: data[m] != Backslash && !(quoted && data[m] == Quote)
    requires forall m | 0 <= m < |pending| :: IsWhitespace(pending[m])
    ensures StringLoop(data, quoted, flush, Lexed(Scan(res, pending, false), k, errors))
         == StringLoop(data, quoted, flush, Lexed(AfterPlain(res, pending, data[k..e]), e, errors))
    decreases e - k
  {
    if k == e {
      assert data[k..e] == [];
      AfterNoText(res, pending);
    } else {
      var c, v := data[k], data[k + 1..e];
      PlainStep(data, quoted, flush, Scan(res, pending, false), k, errors);
      assert data[k..e] == [c] + v;
      if IsWhitespace(c) {
        PlainRun(data, quoted, flush, res, pending + [c], k + 1, e, errors);
        AfterWhitespace(res, pending, c, v);
      } else {
        PlainRun(data, quoted, flush, res + pending + [c], [], k + 1, e, errors);
        AfterOther(res, pending, c, v);
      }
    }
  }

  /** The text after leading whitespace, read as plain text, is the trimmed rest of the input. */
  lemma TrimmedRest(data: seq<CodeUnit>, i: nat)
    requires i <= |data|
    ensures AfterPlain([], [], data[SkipWs(data, i)..]).res == Trim(data[i..])
  {
    var s := SkipWs(data, i);
    var rest, t := data[i..], data[s..];
    assert TrimStart(rest) == t by {
      forall j | 0 <= j < s - i
        ensures IsWhitespace(rest[j])
      {
        assert rest[j] == data[i + j];
      }
      assert s - i < |rest| ==> rest[s - i] == data[s];
      TrimStartOfSuffix(rest, s - i);
      assert rest[s - i..] == t;
    }
    assert AfterPlain([], [], t).res == TrimEnd(t) by {
      assert [] + t == t;
      assert [] + TrimEnd(t) == TrimEnd(t);
    }
  }

  /**
   * An unquoted string without backslashes is the rest of the input with leading and trailing
   * whitespace trimmed (inner whitespace kept), and the cursor ends at the end of the input.
   */
  lemma UnquotedPlain(data: seq<CodeUnit>, i: nat, flush: bool)
    requires i <= |data| && CurAt(data, i) != Some(Quote)
    requires forall m | i <= m < |data| :: data[m] != Backslash
    ensures StringAt(data, i, flush) == Lexed(Trim(data[i..]), |data|, [])
  {
    var s := SkipWs(data, i);
    var st := AfterPlain([], [], data[s..]);
    assert data[s..|data|] == data[s..];
    PlainRun(data, false, flush, [], [], s, |data|, []);
    assert StringLoop(data, false, flush, Lexed(st, |data|, [])) == Lexed(st, |data|, []);
    TrimmedRest(data, i);
  }

  /**
   * A quoted string without backslashes is exactly the text up to the next `"` (or the end of
   * the input), whitespace included; the closing `"` is stepped over when there is one.
   */
  lemma QuotedPlain(data: seq<CodeUnit>, i: nat, e: nat, flush: bool)
    requires i < e <= |data| && data[i] == Quote
    requires forall m | i < m < e :: data[m] != Backslash && data[m] != Quote
    requires e < |data| ==> data[e] == Quote
    ensures StringAt(data, i, flush) == Lexed(data[i + 1..e], if e < |data| then e + 1 else e, [])
  {
    PlainRun(data, true, flush, [], [], i + 1, e, []);
    var st := AfterPlain([], [], data[i + 1..e]);
    assert StringLoop(data, true, flush, Lexed(st, e, [])) == Lexed(st, e, []);
    AfterPlainKeepsText([], [], data[i + 1..e]);
    assert [] + [] + data[i + 1..e] == data[i + 1..e];
  }

  /** `n` copies of an error. */
  function Repeat(x: ParseError, n: nat): (r: seq<ParseError>)
    ensures |r| == n
  {
    if n == 0 then [] else [x] + Repeat(x, n - 1)
  }

  /** `k` (at most 4) is the number of hex digits at `j` before the first code unit that is not one. */
  predicate HexRunIs(data: seq<CodeUnit>, j: nat, k: nat) {
    k <= 4 && (forall n | j <= n < j + k :: HexAt(data, n).Some?) && (k < 4 ==> HexAt(data, j + k).None?)
  }

  /** The error a `\u` loop step records when the fork stands on something other than a hex digit. */
  function HexError(data: seq<CodeUnit>, k: nat): ParseError
    requires k <= |data|
  {
    ParseError(PosAt(data, k), InvalidHexDigit(CurAt(data, k)))
  }

  /**
   * Once the fork stands on something other than a hex digit it never moves again, so every
   * remaining step records the same error at the same position.
   */
  lemma {:induction false} HexLoopStuck(data: seq<CodeUnit>, i: nat, h: Hex)
    requires h.end <= |data| && i <= 4 && h.accum < Pow16(i) && HexAt(data, h.end).None?
    ensures var r := HexLoop(data, i, h);
      r.end == h.end && r.errors == h.errors + Repeat(HexError(data, h.end), 4 - i) && (i < 4 ==> !r.valid)
    decreases 4 - i
  {
    var x := HexError(data, h.end);
    if i == 4 {
      assert h.errors + [] == h.errors;
    } else {
      var h' := HexStep(data, h);
      assert h' == Hex(false, h.accum * 16, h.end, h.errors + [x]);
      assert h'.accum < Pow16(i + 1);
      HexLoopStuck(data, i + 1, h');
      assert Repeat(x, 4 - i) == [x] + Repeat(x, 4 - (i + 1));
      assert h.errors + [x] + Repeat(x, 4 - (i + 1)) == h.errors + ([x] + Repeat(x, 4 - (i + 1)));
    }
  }

  /** From step `i` of a `\u` loop that has read only hex digits so far. */
  lemma {:induction false} HexLoopRun(data: seq<CodeUnit>, j: nat, k: nat, i: nat, h: Hex)
    requires HexRunIs(data, j, k) && i <= k
    requires h.end == j + i <= |data| && h.valid && h.errors == [] && h.accum < Pow16(i)
    ensures var r := HexLoop(data, i, h);
      r.end == j + k && (r.valid <==> k == 4) &&
      (k == 4 ==> r.errors == []) && (k < 4 ==> r.errors == Repeat(HexError(data, j + k), 4 - k))
    decreases 4 - i
  {
    if i == 4 {
      assert HexLoop(data, i, h) == h;
    } else if i == k {
      HexLoopStuck(data, i, h);
      assert [] + Repeat(HexError(data, j + i), 4 - i) == Repeat(HexError(data, j + i), 4 - i);
    } else {
      assert HexAt(data, j + i).Some?;
      var h' := HexStep(data, h);
      assert h'.accum < Pow16(i + 1);
      HexLoopRun(data, j, k, i + 1, h');
    }
  }

  /**
   * A `\u` escape whose four code units start with `k` hex digits steps over those digits and
   * no further; it gives a code unit and no error exactly when all four are hex digits.
   * Otherwise it records the ignored escape, quoting the digits it stepped over, and then the
   * same invalid-digit error once for each of the four steps from the first non-digit on.
   */
  lemma UnicodeEscapeOutcome(data: seq<CodeUnit>, j: nat, k: nat)
    requires j <= |data| && HexRunIs(data, j, k)
    ensures var u := UnicodeEscapeAt(data, j);
      u.end == j + k && (u.value.Some? <==> k == 4) && (u.errors == [] <==> k == 4) &&
      (k < 4 ==> u.errors == [ParseError(PosAt(data, j), InvalidUnicodeEscape(data[j..j + k]))]
                            + Repeat(HexError(data, j + k), 4 - k))
  {
    var h := HexLoop(data, 0, Hex(true, 0, j, []));
    HexLoopRun(data, j, k, 0, Hex(true, 0, j, []));
    if k < 4 {
      var x := ParseError(PosAt(data, j), InvalidUnicodeEscape(data[j..h.end]));
      assert !h.valid && h.end == j + k;
      assert UnicodeEscapeAt(data, j) == Lexed(None, h.end, [x] + h.errors);
    } else {
      assert h.valid && h.errors == [];
    }
  }

  /** Four hex digits denote the code unit `d0 * 16^3 + d1 * 16^2 + d2 * 16 + d3`. */
  lemma FourHexDigits(data: seq<CodeUnit>, j: nat)
    requires j + 4 <= |data| && forall m | j <= m < j + 4 :: HexDigitValue(data[m]).Some?
    ensures var d0, d1, d2, d3 := HexDigitValue(data[j]).value, HexDigitValue(data[j + 1]).value,
                                  HexDigitValue(data[j + 2]).value, HexDigitValue(data[j + 3]).value;
      UnicodeEscapeAt(data, j) == Lexed(Some((((d0 * 16 + d1) * 16 + d2) * 16 + d3) as CodeUnit), j + 4, [])
  {
    var d0, d1, d2, d3 := HexAt(data, j).value, HexAt(data, j + 1).value, HexAt(data, j + 2).value, HexAt(data, j + 3).value;
    assert HexAt(data, j).Some? && HexAt(data, j + 1).Some? && HexAt(data, j + 2).Some? && HexAt(data, j + 3).Some?;
    var h0 := Hex(true, 0, j, []);
    var h1 := Hex(true, d0, j + 1, []);
    var h2 := Hex(true, d0 * 16 + d1, j + 2, []);
    var h3 := Hex(true, (d0 * 16 + d1) * 16 + d2, j + 3, []);
    var h4 := Hex(true, ((d0 * 16 + d1) * 16 + d2) * 16 + d3, j + 4, []);
    assert Pow16(1) == 16 && Pow16(2) == 256 && Pow16(3) == 4096 && Pow16(4) == 65536;
    assert HexStep(data, h0) == h1 && HexStep(data, h1) == h2 && HexStep(data, h2) == h3 && HexStep(data, h3) == h4;
    assert HexLoop(data, 3, h3) == h4;
    assert HexLoop(data, 2, h2) == h4;
    assert HexLoop(data, 1, h1) == h4;
    assert HexLoop(data, 0, h0) == h4;
  }

  /**
   * An escape letter other than `u` that is not in the escape table appends nothing, records
   * one error, and the cursor moves past the letter only; a letter in the table records nothing.
   */
  lemma LetterOutcome(data: seq<CodeUnit>, flush: bool, st: Scan, i: nat)
    requires i < |data| && data[i] != LowerU
    ensures var e := EscapeAt(data, flush, st, i);
      e.end == i + 1 && (e.errors == [] <==> EscapeOf(data[i]).Some?) &&
      (e.errors != [] ==> e.value == st.(inEscape := false) && |e.errors| == 1) &&
      (EscapeOf(data[i]).Some? ==> e.value == Emit(st, EscapeOf(data[i]).value, flush))
  {
  }

  /**
   * A `\\u` escape without four hex digits appends nothing, and the cursor moves past the `u`
   * and the hex digits that were there only.
   */
  lemma UnicodeLetterOutcome(data: seq<CodeUnit>, flush: bool, st: Scan, i: nat, k: nat)
    requires i < |data| && data[i] == LowerU && HexRunIs(data, i + 1, k)
    ensures var e := EscapeAt(data, flush, st, i);
      e.end == i + 1 + k && (e.errors == [] <==> k == 4) && (k < 4 ==> e.value == st.(inEscape := false))
  {
    UnicodeEscapeOutcome(data, i + 1, k);
  }
}
