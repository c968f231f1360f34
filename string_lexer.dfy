/**
 * `parseString`: a quoted string (`"` ... `"`) or an unquoted one that runs to the end of the
 * input, with backslash escapes, `\uXXXX` escapes, and whitespace that is held back until
 * something other than whitespace follows it.
 */
module Strings {
  import opened Wrappers
  import opened CodeUnits
  import opened Cursor

  /**
   * The state of the `parseString` loop: the text so far (`res`), the whitespace held back
   * (`trailingWhitespace`), and whether a backslash is waiting for its escape letter.
   */
  datatype Scan = Scan(res: seq<CodeUnit>, pending: seq<CodeUnit>, inEscape: bool)

  /** The state of the four-step `\u` loop on the fork `chk`. */
  datatype Hex = Hex(valid: bool, accum: nat, end: nat, errors: seq<ParseError>)

  /** `hexDigitValue[chk.cur]`: nothing at the end of the input. */
  function HexAt(data: seq<CodeUnit>, k: nat): Option<nat> {
    if k < |data| then HexDigitValue(data[k]) else None
  }

  function Pow16(n: nat): (r: nat)
    ensures r > 0
  {
    if n == 0 then 1 else 16 * Pow16(n - 1)
  }

  /**
   * One step of the `\u` loop, the fork at offset `h.end`: the value is multiplied by 16; a hex
   * digit is added and stepped over, anything else records an error at the fork's position,
   * marks the escape invalid, and does not move.
   */
  function HexStep(data: seq<CodeUnit>, h: Hex): (r: Hex)
    requires h.end <= |data|
    ensures h.end <= r.end <= |data|
    ensures r.valid ==> h.valid && r.end == h.end + 1 && r.errors == h.errors
    ensures r.accum < 16 * (h.accum + 1)
  {
    match HexAt(data, h.end)
    case None =>
      Hex(false, h.accum * 16, h.end, h.errors + [ParseError(PosAt(data, h.end), InvalidHexDigit(CurAt(data, h.end)))])
    case Some(v) =>
      Hex(h.valid, h.accum * 16 + v, h.end + 1, h.errors)
  }

  /** Steps `i` to 4 of the `\u` loop. */
  function HexLoop(data: seq<CodeUnit>, i: nat, h: Hex): (r: Hex)
    requires h.end <= |data| && i <= 4 && h.accum < Pow16(i)
    ensures h.end <= r.end <= |data| && r.accum < Pow16(4)
    ensures r.valid ==> h.valid && r.end == h.end + (4 - i) && r.errors == h.errors
    decreases 4 - i
  {
    if i == 4 then h
    else
      var h' := HexStep(data, h);
      assert h'.accum < Pow16(i + 1);
      HexLoop(data, i + 1, h')
  }

  /**
   * A `\u` escape whose four digits start at offset `j`: the code unit it denotes, or nothing
   * and an error quoting the text the fork stepped over, followed by the fork's own errors.
   */
  function UnicodeEscapeAt(data: seq<CodeUnit>, j: nat): (r: Lexed<Option<CodeUnit>>)
    requires j <= |data|
    ensures j <= r.end <= |data|
  {
    var h := HexLoop(data, 0, Hex(true, 0, j, []));
    assert Pow16(4) == 0x1_0000;
    if h.valid then Lexed(Some(h.accum as CodeUnit), h.end, [])
    else Lexed(None, h.end, [ParseError(PosAt(data, j), InvalidUnicodeEscape(data[j..h.end]))] + h.errors)
  }

  /**
   * The text an escape stands for is appended. As written (`flush` false) it goes straight
   * after `res` and the held-back whitespace stays held back; with `flush` the whitespace is
   * written out first, as it is before any other code unit.
   */
  function Emit(st: Scan, c: CodeUnit, flush: bool): (r: Scan)
    ensures !r.inEscape
    ensures r.res + r.pending == if flush then st.res + st.pending + [c] else st.res + [c] + st.pending
  {
    if flush then Scan(st.res + st.pending + [c], [], false) else Scan(st.res + [c], st.pending, false)
  }

  /** Where the `parseString` loop stops: at the end of the input, or on an unescaped `"` when quoted. */
  predicate Stops(data: seq<CodeUnit>, quoted: bool, i: nat, st: Scan) {
    i >= |data| || (quoted && !st.inEscape && data[i] == Quote)
  }

  /**
   * The escape letter at offset `i` after a `\\`: a `\\u` escape, an unknown letter (an error
   * quoting the code unit after it), or a known one.
   */
  function EscapeAt(data: seq<CodeUnit>, flush: bool, st: Scan, i: nat): (r: Lexed<Scan>)
    requires i < |data|
    ensures i < r.end <= |data| && !r.value.inEscape
  {
    if data[i] == LowerU then
      var u := UnicodeEscapeAt(data, i + 1);
      Lexed(if u.value.Some? then Emit(st, u.value.value, flush) else st.(inEscape := false), u.end, u.errors)
    else match EscapeOf(data[i])
      case None =>
        Lexed(st.(inEscape := false), i + 1, [ParseError(PosAt(data, i + 1), InvalidEscape(CurAt(data, i + 1)))])
      case Some(x) =>
        Lexed(Emit(st, x, flush), i + 1, [])
  }

  /**
   * One iteration of the `parseString` loop at offset `i`, in a state that does not stop: the
   * new state, where it ends, and the errors it records.
   */
  function ScanAt(data: seq<CodeUnit>, flush: bool, st: Scan, i: nat): (r: Lexed<Scan>)
    requires i < |data|
    ensures i < r.end <= |data|
  {
    var c := data[i];
    if c == Backslash then
      Lexed(if st.inEscape then Emit(st, Backslash, flush) else st.(inEscape := true), i + 1, [])
    else if st.inEscape then EscapeAt(data, flush, st, i)
    else if IsWhitespace(c) then Lexed(st.(pending := st.pending + [c]), i + 1, [])
    else Lexed(Scan(st.res + st.pending + [c], [], false), i + 1, [])
  }

  /** The same iteration from `n`, its errors appended to those recorded so far. */
  function StepAt(data: seq<CodeUnit>, flush: bool, n: Lexed<Scan>): (r: Lexed<Scan>)
    requires n.end < |data|
    ensures n.end < r.end <= |data|
  {
    var s := ScanAt(data, flush, n.value, n.end);
    Lexed(s.value, s.end, n.errors + s.errors)
  }

  /**
   * The `parseString` loop from the state `n` (offset, scan state and errors recorded so far)
   * until it stops.
   */
  function StringLoop(data: seq<CodeUnit>, quoted: bool, flush: bool, n: Lexed<Scan>): (r: Lexed<Scan>)
    requires n.end <= |data|
    ensures n.end <= r.end <= |data| && Stops(data, quoted, r.end, r.value)
    decreases |data| - n.end
  {
    if Stops(data, quoted, n.end, n.value) then n
    else StringLoop(data, quoted, flush, StepAt(data, flush, n))
  }

  /**
   * What `parseString` returns, where it leaves the cursor, and the errors it records. A string
   * is quoted when the cursor is on `"`; otherwise leading whitespace is skipped. A quoted
   * string keeps its held-back whitespace and steps over its closing `"` when there is one; an
   * unquoted one drops it.
   */
  function StringAt(data: seq<CodeUnit>, i: nat, flush: bool): (r: Lexed<seq<CodeUnit>>)
    requires i <= |data|
    ensures i <= r.end <= |data|
  {
    var quoted := CurAt(data, i) == Some(Quote);
    var start := if quoted then i + 1 else SkipWs(data, i);
    var l := StringLoop(data, quoted, flush, Lexed(Scan([], [], false), start, []));
    if quoted then Lexed(l.value.res + l.value.pending, if CurAt(data, l.end) == Some(Quote) then l.end + 1 else l.end, l.errors)
    else Lexed(l.value.res, l.end, l.errors)
  }

  /** The loop, from a state that does not stop, is the loop from the state after one step. */
  lemma LoopUnfold(data: seq<CodeUnit>, quoted: bool, flush: bool, st: Scan, i: nat, errors: seq<ParseError>)
    requires i < |data| && !Stops(data, quoted, i, st)
    ensures var b := ScanAt(data, flush, st, i);
      StringLoop(data, quoted, flush, Lexed(st, i, errors))
      == StringLoop(data, quoted, flush, Lexed(b.value, b.end, errors + b.errors))
  {
  }

  /** The loop only appends to the errors recorded before it. */
  lemma {:induction false} LoopErrorsAppend(data: seq<CodeUnit>, quoted: bool, flush: bool, st: Scan, i: nat,
                                            before: seq<ParseError>, errors: seq<ParseError>)
    requires i <= |data|
    ensures var r := StringLoop(data, quoted, flush, Lexed(st, i, errors));
      StringLoop(data, quoted, flush, Lexed(st, i, before + errors)) == Lexed(r.value, r.end, before + r.errors)
    decreases |data| - i
  {
    if !Stops(data, quoted, i, st) {
      var b := ScanAt(data, flush, st, i);
      LoopUnfold(data, quoted, flush, st, i, before + errors);
      LoopUnfold(data, quoted, flush, st, i, errors);
      assert before + errors + b.errors == before + (errors + b.errors);
      LoopErrorsAppend(data, quoted, flush, b.value, b.end, before, errors + b.errors);
    }
  }

  /** One pass of the `\u` loop body on the fork `chk`. */
  method ParseHexDigit(chk: Ctx, valid: bool, accum: nat) returns (valid': bool, accum': nat)
    requires chk.Valid()
    modifies chk`pos, chk`errors
    ensures chk.Valid()
    ensures Hex(valid', accum', chk.pos.idx, chk.errors)
         == HexStep(chk.data, Hex(valid, accum, old(chk.pos.idx), old(chk.errors)))
  {
    valid', accum' := valid, accum * 16;
    var cur := if chk.Cur().Some? then HexDigitValue(chk.Cur().value) else None;
    if cur.None? {
      valid' := false;
      chk.AddError(InvalidHexDigit(chk.Cur()));
      return;
    }
    accum' := accum' + cur.value;
    chk.Next();
  }

  /** The four-step `\u` loop on the fork `chk`. */
  method ParseHexDigits(chk: Ctx) returns (valid: bool, accum: nat)
    requires chk.Valid()
    modifies chk`pos, chk`errors
    ensures chk.Valid()
    ensures Hex(valid, accum, chk.pos.idx, chk.errors) == HexLoop(chk.data, 0, Hex(true, 0, old(chk.pos.idx), old(chk.errors)))
  {
    ghost var goal := HexLoop(chk.data, 0, Hex(true, 0, chk.pos.idx, chk.errors));
    valid, accum := true, 0;
    for i := 0 to 4
      invariant chk.Valid() && accum < Pow16(i)
      invariant HexLoop(chk.data, i, Hex(valid, accum, chk.pos.idx, chk.errors)) == goal
    {
      ghost var h := Hex(valid, accum, chk.pos.idx, chk.errors);
      valid, accum := ParseHexDigit(chk, valid, accum);
      assert accum < Pow16(i + 1) by { assert Pow16(i + 1) == 16 * Pow16(i); }
      assert Hex(valid, accum, chk.pos.idx, chk.errors) == HexStep(chk.data, h);
    }
  }

  /** The `\u` branch of `parseString` after the `u`: the four-step loop on a fork, then the commit. */
  method ParseUnicodeEscape(ctx: Ctx) returns (unit: Option<CodeUnit>)
    requires ctx.Valid()
    modifies ctx`pos, ctx`errors
    ensures ctx.Valid()
    ensures var u := UnicodeEscapeAt(ctx.data, old(ctx.pos.idx));
      unit == u.value && ctx.pos.idx == u.end && ctx.errors == old(ctx.errors) + u.errors
  {
    var chk := ctx.Clone();
    var valid, accum := ParseHexDigits(chk);
    assert Pow16(4) == 0x1_0000;
    if valid {
      unit := Some(accum as CodeUnit);
    } else {
      unit := None;
      var e := ParseError(ctx.pos, InvalidUnicodeEscape(ctx.SliceBetween(chk)));
      ctx.AddError(e.msg);
      assert old(ctx.errors) + [e] + chk.errors == old(ctx.errors) + ([e] + chk.errors);
    }
    ctx.AdvanceTo(chk);
  }

  lemma UnicodeLetter(data: seq<CodeUnit>, st: Scan, i: nat)
    requires i < |data| && data[i] == LowerU
    ensures var u := UnicodeEscapeAt(data, i + 1);
      EscapeAt(data, false, st, i)
      == Lexed(if u.value.Some? then Scan(st.res + [u.value.value], st.pending, false) else st.(inEscape := false), u.end, u.errors)
  {
  }

  /** The escape branch of the `parseString` loop on a `u`. */
  method ParseUnicodeLetter(ctx: Ctx, res: seq<CodeUnit>, ghost pending: seq<CodeUnit>) returns (res': seq<CodeUnit>)
    requires ctx.Valid() && ctx.Cur() == Some(LowerU)
    modifies ctx`pos, ctx`errors
    ensures ctx.Valid()
    ensures var e := EscapeAt(ctx.data, false, Scan(res, pending, true), old(ctx.pos.idx));
      Scan(res', pending, false) == e.value && ctx.pos.idx == e.end && ctx.errors == old(ctx.errors) + e.errors
  {
    UnicodeLetter(ctx.data, Scan(res, pending, true), ctx.pos.idx);
    ctx.Next();
    res' := res;
    var unit := ParseUnicodeEscape(ctx);
    if unit.Some? {
      res' := res' + [unit.value];
    }
  }

  /**
   * The escape branch of the `parseString` loop, on the code unit after a `\\`: a `\\u` escape,
   * an unknown escape (recorded as an error) or a known one.
   */
  method ParseEscape(ctx: Ctx, res: seq<CodeUnit>, ghost pending: seq<CodeUnit>) returns (res': seq<CodeUnit>)
    requires ctx.Valid() && ctx.Cur().Some? && ctx.Cur() != Some(Backslash)
    modifies ctx`pos, ctx`errors
    ensures ctx.Valid()
    ensures var e := EscapeAt(ctx.data, false, Scan(res, pending, true), old(ctx.pos.idx));
      Scan(res', pending, false) == e.value && ctx.pos.idx == e.end && ctx.errors == old(ctx.errors) + e.errors
  {
    res' := res;
    ghost var st, i := Scan(res, pending, true), ctx.pos.idx;
    if ctx.Cur() == Some(LowerU) {
      res' := ParseUnicodeLetter(ctx, res, pending);
      return;
    }
    var escaped := EscapeOf(ctx.Cur().value);
    ctx.Next();
    if escaped.None? {
      assert EscapeAt(ctx.data, false, st, i)
          == Lexed(st.(inEscape := false), i + 1, [ParseError(PosAt(ctx.data, i + 1), InvalidEscape(CurAt(ctx.data, i + 1)))]);
      ctx.AddError(InvalidEscape(ctx.Cur()));
      return;
    }
    assert EscapeAt(ctx.data, false, st, i) == Lexed(Emit(st, escaped.value, false), i + 1, []);
    res' := res' + [escaped.value];
  }

  /**
   * One pass of the `parseString` loop body at a code unit: `stop` is its `break` on the closing
   * quote, which leaves everything as it was; otherwise the pass is one step.
   */
  method ScanUnit(ctx: Ctx, quoted: bool, res: seq<CodeUnit>, pending: seq<CodeUnit>, inEscape: bool)
    returns (stop: bool, res': seq<CodeUnit>, pending': seq<CodeUnit>, inEscape': bool)
    requires ctx.Valid() && ctx.Cur().Some?
    modifies ctx`pos, ctx`errors
    ensures ctx.Valid()
    ensures stop == Stops(ctx.data, quoted, old(ctx.pos.idx), Scan(res, pending, inEscape))
    ensures stop ==> ctx.pos == old(ctx.pos) && ctx.errors == old(ctx.errors)
    ensures stop ==> res' == res && pending' == pending && inEscape' == inEscape
    ensures !stop ==>
      Lexed(Scan(res', pending', inEscape'), ctx.pos.idx, ctx.errors)
      == StepAt(ctx.data, false, Lexed(Scan(res, pending, inEscape), old(ctx.pos.idx), old(ctx.errors)))
  {
    stop, res', pending', inEscape' := false, res, pending, inEscape;
    var backslash := ctx.Consume(Backslash);
    if backslash {
      if !inEscape {
        inEscape' := true;
      } else {
        res' := res + [Backslash];
        inEscape' := false;
      }
      return;
    }
    if inEscape {
      inEscape' := false;
      res' := ParseEscape(ctx, res, pending);
      return;
    }
    if quoted && ctx.Cur() == Some(Quote) {
      stop := true;
      return;
    }
    var c := ctx.Cur().value;
    if IsWhitespace(c) {
      pending' := pending + [c];
    } else {
      res' := res + pending + [c];
      pending' := [];
    }
    ctx.Next();
  }

  method ParseString(ctx: Ctx) returns (s: seq<CodeUnit>)
    requires ctx.Valid()
    modifies ctx`pos, ctx`errors
    ensures ctx.Valid()
    ensures var r := StringAt(ctx.data, old(ctx.pos.idx), false);
      s == r.value && ctx.pos.idx == r.end && ctx.errors == old(ctx.errors) + r.errors
  {
    var quoted := ctx.Consume(Quote);
    if !quoted {
      ctx.SkipWhitespace();
    }
    ghost var start := ctx.pos.idx;
    ghost var goal := StringLoop(ctx.data, quoted, false, Lexed(Scan([], [], false), start, ctx.errors));
    var res: seq<CodeUnit>, pending: seq<CodeUnit>, inEscape := [], [], false;
    while ctx.Cur().Some?
      invariant ctx.Valid()
      invariant StringLoop(ctx.data, quoted, false, Lexed(Scan(res, pending, inEscape), ctx.pos.idx, ctx.errors)) == goal
      decreases |ctx.data| - ctx.pos.idx
    {
      var stop;
      stop, res, pending, inEscape := ScanUnit(ctx, quoted, res, pending, inEscape);
      if stop {
        break;
      }
    }
    assert Lexed(Scan(res, pending, inEscape), ctx.pos.idx, ctx.errors) == goal;
    assert old(ctx.errors) + [] == old(ctx.errors);
    LoopErrorsAppend(ctx.data, quoted, false, Scan([], [], false), start, old(ctx.errors), []);
    if quoted {
      res := res + pending;
      var _ := ctx.Consume(Quote);
    }
    return res;
  }
}
