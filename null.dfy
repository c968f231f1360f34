/**
 * `parseNull`: the end of the input, or one of the spellings `null`, `nil` and `none`, tried in
 * that order and matched case-sensitively.
 */
module Nulls {
  import opened Wrappers
  import opened CodeUnits
  import opened Cursor

  const NullWord: seq<CodeUnit> := ['n' as CodeUnit, 'u' as CodeUnit, 'l' as CodeUnit, 'l' as CodeUnit]
  const NilWord: seq<CodeUnit> := ['n' as CodeUnit, 'i' as CodeUnit, 'l' as CodeUnit]
  const NoneWord: seq<CodeUnit> := ['n' as CodeUnit, 'o' as CodeUnit, 'n' as CodeUnit, 'e' as CodeUnit]

  /** The spellings `parseNull` accepts, in the order it tries them. */
  const NullWords: seq<seq<CodeUnit>> := [NullWord, NilWord, NoneWord]

  /**
   * What `parseNull` returns (`true` for `null`, `false` for `undefined`) and where it leaves the
   * cursor: at the end of the input it returns `null` without moving; otherwise it steps over
   * the first spelling that occurs at the cursor, or returns `undefined` without moving.
   */
  function NullAt(data: seq<CodeUnit>, i: nat): (r: Lexed<bool>)
    requires i <= |data|
    ensures i <= r.end <= |data| && r.errors == []
  {
    if i == |data| then Lexed(true, i, [])
    else if MatchesAt(data, i, NullWord) then Lexed(true, i + |NullWord|, [])
    else if MatchesAt(data, i, NilWord) then Lexed(true, i + |NilWord|, [])
    else if MatchesAt(data, i, NoneWord) then Lexed(true, i + |NoneWord|, [])
    else Lexed(false, i, [])
  }

  method ParseNull(ctx: Ctx) returns (isNull: bool)
    requires ctx.Valid()
    modifies ctx`pos, ctx`errors
    ensures ctx.Valid()
    ensures Lexed(isNull, ctx.pos.idx, []) == NullAt(ctx.data, old(ctx.pos.idx))
    ensures ctx.errors == old(ctx.errors)
  {
    if ctx.Cur().None? {
      return true;
    }
    for w := 0 to |NullWords|
      invariant ctx.Valid() && ctx.pos == old(ctx.pos) && ctx.errors == old(ctx.errors)
      invariant forall v | 0 <= v < w :: !MatchesAt(ctx.data, ctx.pos.idx, NullWords[v])
    {
      var ok := ctx.ConsumeString(NullWords[w]);
      if ok {
        assert NullWords[0] == NullWord && NullWords[1] == NilWord && NullWords[2] == NoneWord;
        return true;
      }
    }
    assert NullWords[0] == NullWord && NullWords[1] == NilWord && NullWords[2] == NoneWord;
    assert !MatchesAt(ctx.data, ctx.pos.idx, NullWords[0]) && !MatchesAt(ctx.data, ctx.pos.idx, NullWords[1]);
    assert !MatchesAt(ctx.data, ctx.pos.idx, NullWords[2]);
    return false;
  }

  /**
   * No two spellings occur at the same offset (they differ in their second code unit), so the
   * order in which `parseNull` tries them does not change what it reads.
   */
  lemma SpellingsExclusive(data: seq<CodeUnit>, i: nat, v: nat, w: nat)
    requires v < |NullWords| && w < |NullWords|
    requires MatchesAt(data, i, NullWords[v]) && MatchesAt(data, i, NullWords[w])
    ensures v == w
  {
    assert data[i + 1] == data[i..i + |NullWords[v]|][1] == NullWords[v][1];
    assert data[i + 1] == data[i..i + |NullWords[w]|][1] == NullWords[w][1];
  }

  /**
   * When `parseNull` moves, the text it stepped over is one of the spellings; when it returns
   * `undefined`, no spelling occurs at the cursor and the cursor is not at the end. Matching is
   * case-sensitive: a code unit other than a lower-case `n` (the `N` of `NULL` or `Nil`) gives
   * `undefined` without moving.
   */
  lemma NullReadsSpelling(data: seq<CodeUnit>, i: nat)
    requires i <= |data|
    ensures var r := NullAt(data, i);
      (r.end > i ==> r.value && data[i..r.end] in NullWords) &&
      (r.end == i && r.value ==> i == |data|) &&
      (!r.value <==> i < |data| && forall w | 0 <= w < |NullWords| :: !MatchesAt(data, i, NullWords[w])) &&
      (i < |data| && data[i] != 'n' as CodeUnit ==> r == Lexed(false, i, []))
  {
    var r := NullAt(data, i);
    if !r.value {
      forall w | 0 <= w < |NullWords|
        ensures !MatchesAt(data, i, NullWords[w])
      {
        assert NullWords[w] == NullWord || NullWords[w] == NilWord || NullWords[w] == NoneWord;
      }
    } else if r.end > i {
      assert data[i..r.end] == NullWord || data[i..r.end] == NilWord || data[i..r.end] == NoneWord;
    }
  }

  /** Each spelling, followed by anything at all, is read as `null` and stepped over entirely. */
  lemma NullOfSpelling(w: nat, rest: seq<CodeUnit>)
    requires w < |NullWords|
    ensures NullAt(NullWords[w] + rest, 0) == Lexed(true, |NullWords[w]|, [])
  {
    var data := NullWords[w] + rest;
    assert data[0..|NullWords[w]|] == NullWords[w];
    assert NullWords[0] == NullWord && NullWords[1] == NilWord && NullWords[2] == NoneWord;
    forall v | 0 <= v < |NullWords| && MatchesAt(data, 0, NullWords[v])
      ensures v == w
    {
      SpellingsExclusive(data, 0, v, w);
    }
  }
}
