/**
 * The cursor of the SCSV lexers: a position over a fixed input, an error list, and the
 * fork (`Clone`) / commit (`AdvanceTo`) pair that makes lookahead free of side effects.
 */
module Cursor {
  import opened Wrappers
  import opened CodeUnits

  /**
   * Offset, line and column. A value: `Pos.clone` is a copy and `Pos.equals` is `==`, and the
   * position object that `advanceTo` shares between a parent and its fork cannot alias here.
   */
  datatype Pos = Pos(idx: nat, line: nat, col: nat)

  /** The position of a fresh cursor: offset 0, line 1, column 1. */
  const Start := Pos(0, 1, 1)

  /** What an error reports; the message text itself is not modelled, only what it quotes. */
  datatype Message =
    | InvalidHexDigit(found: Option<CodeUnit>)
    | InvalidUnicodeEscape(digits: seq<CodeUnit>)
    | InvalidEscape(shown: Option<CodeUnit>)

  datatype ParseError = ParseError(pos: Pos, msg: Message)

  /** What a lexer produced, the offset it left the cursor at, and the errors it appended. */
  datatype Lexed<T> = Lexed(value: T, end: nat, errors: seq<ParseError>)

  /** The current code unit at offset `i`, or `None` at end of input (the source's `"eof"`). */
  function CurAt(data: seq<CodeUnit>, i: nat): Option<CodeUnit> {
    if i < |data| then Some(data[i]) else None
  }

  /** One step of `next`: the line counter moves when the cursor arrives on a line feed. */
  function Advance(data: seq<CodeUnit>, p: Pos): (q: Pos)
    requires p.idx < |data|
  {
    var q := Pos(p.idx + 1, p.line, p.col + 1);
    if CurAt(data, q.idx) == Some(LineFeed) then q.(line := p.line + 1, col := 1) else q
  }

  /**
   * The position a cursor over `data` has at offset `i`: every cursor starts at `Start` and moves
   * only by `next`, so its line and column are determined by its offset.
   */
  function PosAt(data: seq<CodeUnit>, i: nat): (p: Pos)
    requires i <= |data|
    ensures p.idx == i && p.line >= 1 && p.col >= 1
  {
    if i == 0 then Start else Advance(data, PosAt(data, i - 1))
  }

  /** Where `skipWhitespace` stops: the first offset at or after `i` that does not hold whitespace. */
  function SkipWs(data: seq<CodeUnit>, i: nat): (j: nat)
    requires i <= |data|
    ensures i <= j <= |data|
    ensures forall k | i <= k < j :: IsWhitespace(data[k])
    ensures j < |data| ==> !IsWhitespace(data[j])
    decreases |data| - i
  {
    if i < |data| && IsWhitespace(data[i]) then SkipWs(data, i + 1) else i
  }

  /** `xs` occurs in `data` at offset `i`. */
  predicate MatchesAt(data: seq<CodeUnit>, i: nat, xs: seq<CodeUnit>) {
    i + |xs| <= |data| && data[i..i + |xs|] == xs
  }

  /** The lexing context `Ctx`: the input (never changed), the position and the errors. */
  class Ctx {
    const data: seq<CodeUnit>
    var pos: Pos
    var errors: seq<ParseError>

    /**
     * Every call of `next` is guarded by a check that the cursor is not at end of input, and
     * the line and column are the ones `next` reaches from the start of the input.
     */
    ghost predicate Valid()
      reads this
    {
      pos.idx <= |data| && pos == PosAt(data, pos.idx)
    }

    constructor (data: seq<CodeUnit>)
      ensures this.data == data && pos == Start && errors == [] && Valid()
    {
      this.data := data;
      pos := Start;
      errors := [];
    }

    /** The `cur` getter. */
    function Cur(): (r: Option<CodeUnit>)
      reads this
      ensures r.Some? <==> pos.idx < |data|
      ensures r.Some? ==> r.value == data[pos.idx]
    {
      CurAt(data, pos.idx)
    }

    /** `clone`: a fork at the same position, over the same input, with no errors of its own. */
    method Clone() returns (fork: Ctx)
      ensures fresh(fork)
      ensures fork.data == data && fork.pos == pos && fork.errors == []
      ensures Valid() ==> fork.Valid()
    {
      fork := new Ctx(data);
      fork.pos := pos;
    }

    /** `advanceTo`: commit a fork, adopting its position and appending its errors after ours. */
    method AdvanceTo(fork: Ctx)
      requires Valid() && fork.Valid() && fork.data == data
      modifies this`pos, this`errors
      ensures Valid()
      ensures pos == old(fork.pos)
      ensures errors == old(errors) + old(fork.errors)
    {
      errors := errors + fork.errors;
      pos := fork.pos;
    }

    /** `next`: offset and column grow by one; arriving on a line feed moves to column 1 of the next line. */
    method Next()
      requires Valid() && Cur().Some?
      modifies this`pos
      ensures Valid() && pos == Advance(data, old(pos))
      ensures pos.idx == old(pos.idx) + 1
      ensures Cur() == Some(LineFeed) ==> pos.line == old(pos.line) + 1 && pos.col == 1
      ensures Cur() != Some(LineFeed) ==> pos.line == old(pos.line) && pos.col == old(pos.col) + 1
    {
      pos := Pos(pos.idx + 1, pos.line, pos.col + 1);
      if Cur() == Some(LineFeed) {
        pos := pos.(line := pos.line + 1, col := 1);
      }
    }

    /** `consume` (case-sensitive): step over `x` if it is the current code unit, else change nothing. */
    method Consume(x: CodeUnit) returns (ok: bool)
      requires Valid()
      modifies this`pos
      ensures Valid()
      ensures ok <==> old(Cur()) == Some(x)
      ensures pos.idx == if ok then old(pos.idx) + 1 else old(pos.idx)
    {
      if Cur() != Some(x) {
        return false;
      }
      Next();
      return true;
    }

    /** `consumeString`: match all of `xs` on a fork and commit it, or change nothing at all. */
    method ConsumeString(xs: seq<CodeUnit>) returns (ok: bool)
      requires Valid()
      modifies this`pos, this`errors
      ensures Valid()
      ensures ok <==> MatchesAt(data, old(pos.idx), xs)
      ensures pos.idx == if ok then old(pos.idx) + |xs| else old(pos.idx)
      ensures errors == old(errors)
    {
      var chk := Clone();
      for i := 0 to |xs|
        invariant chk.data == data && chk.errors == [] && chk.Valid()
        invariant pos == old(pos) && errors == old(errors)
        invariant pos.idx + i <= |data| && data[pos.idx..pos.idx + i] == xs[..i]
        invariant chk.pos.idx == pos.idx + i
      {
        var matched := chk.Consume(xs[i]);
        if !matched {
          return false;
        }
        assert data[pos.idx..pos.idx + i + 1] == data[pos.idx..pos.idx + i] + [xs[i]];
        assert xs[..i + 1] == xs[..i] + [xs[i]];
      }
      assert xs[..|xs|] == xs;
      AdvanceTo(chk);
      return true;
    }

    /** `addError`: record `msg` at the current position. */
    method AddError(msg: Message)
      modifies this`errors
      ensures errors == old(errors) + [ParseError(pos, msg)]
    {
      errors := errors + [ParseError(pos, msg)];
    }

    /** `skipWhitespace`: step over space, tab, line feed and carriage return. */
    method SkipWhitespace()
      requires Valid()
      modifies this`pos
      ensures Valid() && pos.idx == SkipWs(data, old(pos.idx))
    {
      while Cur().Some? && IsWhitespace(Cur().value)
        invariant Valid() && SkipWs(data, pos.idx) == SkipWs(data, old(pos.idx))
        decreases |data| - pos.idx
      {
        Next();
      }
    }

    /** The `remainder` getter: the input from the cursor on. */
    function Remainder(): (r: seq<CodeUnit>)
      reads this
      requires Valid()
      ensures data[..pos.idx] + r == data
    {
      data[pos.idx..]
    }

    /**
     * `sliceBetween`: the input from this cursor up to `other`, with JavaScript's `slice`
     * clamping (an end before the start gives the empty text).
     */
    function SliceBetween(other: Ctx): (r: seq<CodeUnit>)
      reads this, other
      requires Valid() && other.Valid() && other.data == data
      ensures pos.idx <= other.pos.idx ==> data[..pos.idx] + r + data[other.pos.idx..] == data
      ensures other.pos.idx <= pos.idx ==> r == []
    {
      if pos.idx <= other.pos.idx then data[pos.idx..other.pos.idx] else []
    }
  }
}
