/**
 * The string lexer as the inverse of `JSON.stringify` on strings: the quoting it does over code
 * units, and what the lexer reads back from it. With held-back whitespace written out before
 * an escape's code unit, as it is before any other, every string comes back unchanged; as
 * written, a space just before an escaped code unit comes back after it.
 */
module StringCodec {
  import opened Wrappers
  import opened CodeUnits
  import opened Cursor
  import opened Strings
  import opened StringFacts

  const Backspace: CodeUnit := 0x08
  const FormFeed: CodeUnit := 0x0C

  /** A lower-case hex digit. */
  function HexDigitText(d: nat): (c: CodeUnit)
    requires d < 16
    ensures HexDigitValue(c) == Some(d)
  {
    if d < 10 then (Zero as nat + d) as CodeUnit else ('a' as CodeUnit as nat + d - 10) as CodeUnit
  }

  /** The four hex digits of a code unit, most significant first. */
  function HexText(c: CodeUnit): (r: seq<CodeUnit>)
    ensures |r| == 4
  {
    var q := c as nat / 16;
    var q' := q / 16;
    assert q' < 256;
    [HexDigitText(q' / 16), HexDigitText(q' % 16), HexDigitText(q % 16), HexDigitText(c as nat % 16)]
  }

  /** The letter of the two-character escape `JSON.stringify` writes for `c`, if it has one. */
  function ShortEscape(c: CodeUnit): (r: Option<CodeUnit>)
    ensures r.Some? ==> EscapeOf(r.value) == Some(c) && r.value != LowerU
  {
    if c == Quote then Some(Quote)
    else if c == Backslash then Some(Backslash)
    else if c == Backspace then Some('b' as CodeUnit)
    else if c == FormFeed then Some('f' as CodeUnit)
    else if c == LineFeed then Some('n' as CodeUnit)
    else if c == CarriageReturn then Some('r' as CodeUnit)
    else if c == Tab then Some('t' as CodeUnit)
    else None
  }

  /** `JSON.stringify` escapes `"`, `\` and the control code units below 0x20. */
  predicate NeedsEscape(c: CodeUnit) {
    c == Quote || c == Backslash || c < 0x20
  }

  /** How `JSON.stringify` writes one code unit inside the quotes. */
  function EscapeUnit(c: CodeUnit): (r: seq<CodeUnit>)
    ensures |r| >= 1 && (r[0] == Backslash <==> NeedsEscape(c))
  {
    match ShortEscape(c)
    case Some(x) => [Backslash, x]
    case None => if c < 0x20 then [Backslash, LowerU] + HexText(c) else [c]
  }

  function Escape(s: seq<CodeUnit>): seq<CodeUnit>
  {
    if s == [] then [] else EscapeUnit(s[0]) + Escape(s[1..])
  }

  /** `JSON.stringify` of a string. */
  function Quoted(s: seq<CodeUnit>): seq<CodeUnit>
  {
    [Quote] + Escape(s) + [Quote]
  }

  /** No space stands just before a code unit that is written as an escape. */
  predicate SpaceSafe(s: seq<CodeUnit>) {
    forall m | 0 <= m < |s| - 1 :: s[m] == Space ==> !NeedsEscape(s[m + 1])
  }

  /** The hex digits `JSON.stringify` writes are read back as the code unit they came from. */
  lemma HexTextRoundTrip(data: seq<CodeUnit>, j: nat, c: CodeUnit)
    requires j + 4 <= |data| && data[j..j + 4] == HexText(c)
    ensures UnicodeEscapeAt(data, j) == Lexed(Some(c), j + 4, [])
  {
    var n := c as nat;
    var q := n / 16;
    var q' := q / 16;
    assert q' < 256;
    forall m | j <= m < j + 4
      ensures HexDigitValue(data[m]).Some?
    {
      assert data[m] == HexText(c)[m - j];
    }
    assert data[j] == HexText(c)[0] && data[j + 1] == HexText(c)[1];
    assert data[j + 2] == HexText(c)[2] && data[j + 3] == HexText(c)[3];
    FourHexDigits(data, j);
    assert ((q' / 16 * 16 + q' % 16) * 16 + q % 16) * 16 + n % 16 == n;
  }

  /** The scan state after the lexer reads back one code unit written by `EscapeUnit`. */
  function Decoded(flush: bool, st: Scan, c: CodeUnit): Scan
  {
    if NeedsEscape(c) then Emit(st, c, flush)
    else if IsWhitespace(c) then st.(pending := st.pending + [c])
    else Scan(st.res + st.pending + [c], [], false)
  }

  /** `w` stands in `data` from offset `j` on. */
  predicate WrittenAt(data: seq<CodeUnit>, j: nat, w: seq<CodeUnit>) {
    j + |w| <= |data| && data[j..j + |w|] == w
  }

  /** At offset `i` of quoted input the loop does not stop, and its iteration records no error. */
  predicate QuietAt(data: seq<CodeUnit>, flush: bool, st: Scan, i: nat, next: Scan, end: nat) {
    i < |data| && !Stops(data, true, i, st) && ScanAt(data, flush, st, i) == Lexed(next, end, [])
  }

  /** A loop iteration that records no error moves the loop on to the state it computes. */
  lemma QuietStep(data: seq<CodeUnit>, flush: bool, st: Scan, i: nat, next: Scan, end: nat, errors: seq<ParseError>)
    requires QuietAt(data, flush, st, i, next, end)
    ensures StringLoop(data, true, flush, Lexed(st, i, errors)) == StringLoop(data, true, flush, Lexed(next, end, errors))
  {
    LoopUnfold(data, true, flush, st, i, errors);
    assert errors + [] == errors;
  }

  /** The backslash that starts an escape only switches to escape mode. */
  lemma BackslashScan(data: seq<CodeUnit>, flush: bool, st: Scan, k: nat, c: CodeUnit)
    requires !st.inEscape && NeedsEscape(c) && WrittenAt(data, k, EscapeUnit(c))
    ensures QuietAt(data, flush, st, k, st.(inEscape := true), k + 1)
  {
    assert data[k] == EscapeUnit(c)[0];
  }

  /** In escape mode, the letter of a two-character escape gives back its code unit. */
  lemma ShortLetterScan(data: seq<CodeUnit>, flush: bool, st: Scan, j: nat, c: CodeUnit)
    requires st.inEscape && ShortEscape(c).Some?
    requires j + 2 <= |data| && data[j + 1] == ShortEscape(c).value
    ensures ScanAt(data, flush, st, j + 1) == Lexed(Emit(st, c, flush), j + 2, [])
  {
    if c == Backslash {
      assert Emit(st, Backslash, flush) == Emit(st, c, flush);
    } else {
      assert ScanAt(data, flush, st, j + 1) == EscapeAt(data, flush, st, j + 1);
    }
  }

  /** In escape mode, `u` and the four hex digits `JSON.stringify` writes give back the code unit. */
  lemma HexLetterScan(data: seq<CodeUnit>, flush: bool, st: Scan, j: nat, c: CodeUnit)
    requires st.inEscape && j + 6 <= |data| && data[j + 1] == LowerU && data[j + 2..j + 6] == HexText(c)
    ensures ScanAt(data, flush, st, j + 1) == Lexed(Emit(st, c, flush), j + 6, [])
  {
    HexTextRoundTrip(data, j + 2, c);
    assert ScanAt(data, flush, st, j + 1) == EscapeAt(data, flush, st, j + 1);
  }

  /** In escape mode, what follows the backslash of an escape written by `EscapeUnit` at `j`. */
  lemma LetterScan(data: seq<CodeUnit>, flush: bool, st: Scan, j: nat, c: CodeUnit)
    requires NeedsEscape(c) && WrittenAt(data, j, EscapeUnit(c))
    ensures QuietAt(data, flush, st.(inEscape := true), j + 1, Emit(st, c, flush), j + |EscapeUnit(c)|)
  {
    var w := EscapeUnit(c);
    var st' := st.(inEscape := true);
    assert data[j + 1] == w[1];
    if ShortEscape(c).Some? {
      ShortLetterScan(data, flush, st', j, c);
    } else {
      assert data[j + 2..j + 6] == w[2..6] == HexText(c);
      HexLetterScan(data, flush, st', j, c);
    }
    assert Emit(st', c, flush) == Emit(st, c, flush);
  }

  /** Reading back an escape written by `EscapeUnit`: the code unit is appended as an escaped one. */
  lemma EscapeStep(data: seq<CodeUnit>, flush: bool, st: Scan, k: nat, c: CodeUnit, errors: seq<ParseError>)
    requires !st.inEscape && NeedsEscape(c) && WrittenAt(data, k, EscapeUnit(c))
    ensures StringLoop(data, true, flush, Lexed(st, k, errors))
         == StringLoop(data, true, flush, Lexed(Emit(st, c, flush), k + |EscapeUnit(c)|, errors))
  {
    BackslashScan(data, flush, st, k, c);
    QuietStep(data, flush, st, k, st.(inEscape := true), k + 1, errors);
    LetterScan(data, flush, st, k, c);
    QuietStep(data, flush, st.(inEscape := true), k + 1, Emit(st, c, flush), k + |EscapeUnit(c)|, errors);
  }

  /** Reading back one code unit written by `EscapeUnit`. */
  lemma UnitStep(data: seq<CodeUnit>, flush: bool, st: Scan, k: nat, c: CodeUnit, errors: seq<ParseError>)
    requires !st.inEscape && WrittenAt(data, k, EscapeUnit(c))
    ensures StringLoop(data, true, flush, Lexed(st, k, errors))
         == StringLoop(data, true, flush, Lexed(Decoded(flush, st, c), k + |EscapeUnit(c)|, errors))
  {
    if NeedsEscape(c) {
      EscapeStep(data, flush, st, k, c, errors);
    } else {
      assert data[k] == EscapeUnit(c)[0] == c;
      PlainStep(data, true, flush, st, k, errors);
    }
  }

  /**
   * Reading back a code unit keeps the text read so far, then that code unit, in order: always
   * when held-back whitespace is written out before an escape's code unit, and as written when
   * nothing is held back or the code unit was not escaped.
   */
  lemma DecodedKeeps(flush: bool, st: Scan, c: CodeUnit)
    requires !st.inEscape
    requires flush || !NeedsEscape(c) || st.pending == []
    ensures var d := Decoded(flush, st, c); d.res + d.pending == st.res + st.pending + [c] && !d.inEscape
  {
    if NeedsEscape(c) {
      if !flush {
        assert st.res + [c] + [] == st.res + [] + [c];
      }
    } else if IsWhitespace(c) {
      assert st.res + (st.pending + [c]) == st.res + st.pending + [c];
    } else {
      assert st.res + st.pending + [c] + [] == st.res + st.pending + [c];
    }
  }

  /**
   * Reading `t` back from the state `st` keeps its order: always when held-back whitespace is
   * written out before an escape's code unit; as written, when no space stands before an escaped
   * code unit, counting the whitespace already held back.
   */
  predicate KeepsOrder(flush: bool, st: Scan, t: seq<CodeUnit>) {
    !flush ==> SpaceSafe(t) && (st.pending != [] && t != [] ==> !NeedsEscape(t[0]))
  }

  /** After the first code unit of `t` is read back, the rest of `t` still keeps its order. */
  lemma KeepsOrderTail(flush: bool, st: Scan, t: seq<CodeUnit>)
    requires !st.inEscape && t != [] && KeepsOrder(flush, st, t)
    ensures var d := Decoded(flush, st, t[0]);
      d.res + d.pending == st.res + st.pending + [t[0]] && !d.inEscape && KeepsOrder(flush, d, t[1..])
  {
    DecodedKeeps(flush, st, t[0]);
    var d := Decoded(flush, st, t[0]);
    if !flush && t[1..] != [] && d.pending != [] {
      assert t[0] == Space && t[1] == t[1..][0];
    }
  }

  /** What stands at `k` splits where the written text does. */
  lemma WrittenAppend(data: seq<CodeUnit>, k: nat, a: seq<CodeUnit>, b: seq<CodeUnit>)
    requires WrittenAt(data, k, a + b)
    ensures WrittenAt(data, k, a) && WrittenAt(data, k + |a|, b)
  {
    var d := data[k..k + |a| + |b|];
    assert d == a + b;
    assert d[..|a|] == a;
    assert d[|a|..] == b;
    assert data[k..k + |a|] == d[..|a|];
    assert data[k + |a|..k + |a| + |b|] == d[|a|..];
  }

  lemma EscapeCons(t: seq<CodeUnit>)
    requires t != []
    ensures Escape(t) + [Quote] == EscapeUnit(t[0]) + (Escape(t[1..]) + [Quote])
  {
  }

  /** The quoted text of a non-empty `t` starts with its first code unit's escape. */
  lemma WrittenSplit(data: seq<CodeUnit>, k: nat, t: seq<CodeUnit>)
    requires t != [] && WrittenAt(data, k, Escape(t) + [Quote])
    ensures WrittenAt(data, k, EscapeUnit(t[0]))
    ensures WrittenAt(data, k + |EscapeUnit(t[0])|, Escape(t[1..]) + [Quote])
    ensures |Escape(t)| == |EscapeUnit(t[0])| + |Escape(t[1..])|
  {
    EscapeCons(t);
    WrittenAppend(data, k, EscapeUnit(t[0]), Escape(t[1..]) + [Quote]);
  }

  /** The loop ended at `end`, with `text` read back and no error recorded beyond `errors`. */
  predicate ReadBack(r: Lexed<Scan>, end: nat, text: seq<CodeUnit>, errors: seq<ParseError>) {
    r.end == end && r.value.res + r.value.pending == text && r.errors == errors
  }

  /** From offset `k`, in state `st`, the loop is about to read back `Escape(t)` and the closing quote. */
  predicate RunFrom(data: seq<CodeUnit>, flush: bool, st: Scan, k: nat, t: seq<CodeUnit>) {
    !st.inEscape && WrittenAt(data, k, Escape(t) + [Quote]) && KeepsOrder(flush, st, t)
  }

  /** On the closing quote the loop stops at once. */
  lemma ClosingQuote(data: seq<CodeUnit>, flush: bool, st: Scan, k: nat, errors: seq<ParseError>)
    requires RunFrom(data, flush, st, k, [])
    ensures ReadBack(StringLoop(data, true, flush, Lexed(st, k, errors)), k + |Escape([])|, st.res + st.pending + [], errors)
  {
    assert data[k] == (Escape([]) + [Quote])[0];
    assert StringLoop(data, true, flush, Lexed(st, k, errors)) == Lexed(st, k, errors);
    assert st.res + st.pending + [] == st.res + st.pending;
  }

  /** After the first code unit of `t`, the loop is about to read back the rest. */
  lemma RunHead(data: seq<CodeUnit>, flush: bool, st: Scan, k: nat, t: seq<CodeUnit>)
    requires t != [] && RunFrom(data, flush, st, k, t)
    ensures RunFrom(data, flush, Decoded(flush, st, t[0]), k + |EscapeUnit(t[0])|, t[1..])
  {
    WrittenSplit(data, k, t);
    KeepsOrderTail(flush, st, t);
  }

  /** Reading back the first code unit of `t` is one step of the loop that records nothing. */
  lemma RunHeadStep(data: seq<CodeUnit>, flush: bool, st: Scan, k: nat, t: seq<CodeUnit>, errors: seq<ParseError>)
    requires t != [] && RunFrom(data, flush, st, k, t)
    ensures StringLoop(data, true, flush, Lexed(st, k, errors))
         == StringLoop(data, true, flush, Lexed(Decoded(flush, st, t[0]), k + |EscapeUnit(t[0])|, errors))
  {
    assert WrittenAt(data, k, EscapeUnit(t[0])) by {
      WrittenSplit(data, k, t);
    }
    UnitStep(data, flush, st, k, t[0], errors);
  }

  /** What is left to read back, and where it ends, after the first code unit of `t`. */
  lemma RunHeadText(flush: bool, st: Scan, t: seq<CodeUnit>)
    requires t != [] && !st.inEscape && KeepsOrder(flush, st, t)
    ensures var d := Decoded(flush, st, t[0]);
      d.res + d.pending + t[1..] == st.res + st.pending + t && |EscapeUnit(t[0])| + |Escape(t[1..])| == |Escape(t)|
  {
    KeepsOrderTail(flush, st, t);
    AppendAssoc(st.res + st.pending, [t[0]], t[1..]);
    assert [t[0]] + t[1..] == t;
    EscapeCons(t);
  }

  /** What holds of the loop after the first code unit of `t` carries over to the loop before it. */
  lemma RunTransfer(data: seq<CodeUnit>, flush: bool, st: Scan, k: nat, t: seq<CodeUnit>, errors: seq<ParseError>)
    requires t != [] && RunFrom(data, flush, st, k, t)
    ensures var d := Decoded(flush, st, t[0]);
      ReadBack(StringLoop(data, true, flush, Lexed(d, k + |EscapeUnit(t[0])|, errors)),
               k + |EscapeUnit(t[0])| + |Escape(t[1..])|, d.res + d.pending + t[1..], errors)
      ==> ReadBack(StringLoop(data, true, flush, Lexed(st, k, errors)), k + |Escape(t)|, st.res + st.pending + t, errors)
  {
    RunHeadStep(data, flush, st, k, t, errors);
    RunHeadText(flush, st, t);
  }

  /**
   * From a state that is not in escape mode, reading back `Escape(t)` followed by the closing
   * quote stops on that quote, records nothing, and has appended exactly `t`.
   */
  lemma {:induction false} EscapedRun(data: seq<CodeUnit>, flush: bool, st: Scan, k: nat, t: seq<CodeUnit>,
                                      errors: seq<ParseError>)
    requires RunFrom(data, flush, st, k, t)
    ensures ReadBack(StringLoop(data, true, flush, Lexed(st, k, errors)), k + |Escape(t)|, st.res + st.pending + t, errors)
    decreases |t|
  {
    if t == [] {
      ClosingQuote(data, flush, st, k, errors);
    } else {
      RunHead(data, flush, st, k, t);
      RunTransfer(data, flush, st, k, t, errors);
      EscapedRun(data, flush, Decoded(flush, st, t[0]), k + |EscapeUnit(t[0])|, t[1..], errors);
    }
  }

  /** The quoted string, read back: the lexer stops on the closing quote and steps over it. */
  lemma QuotedRead(s: seq<CodeUnit>, rest: seq<CodeUnit>, flush: bool)
    requires flush || SpaceSafe(s)
    ensures StringAt(Quoted(s) + rest, 0, flush) == Lexed(s, |Quoted(s)|, [])
  {
    var data := Quoted(s) + rest;
    var e := Escape(s) + [Quote];
    assert data[0] == Quote && data[1..1 + |e|] == e;
    EscapedRun(data, flush, Scan([], [], false), 1, s, []);
    assert [] + [] + s == s;
  }

  /**
   * Every string comes back from `JSON.stringify` unchanged, whatever follows it, when held-back
   * whitespace is written out before an escape's code unit.
   */
  lemma RoundTrip(s: seq<CodeUnit>, rest: seq<CodeUnit>)
    ensures StringAt(Quoted(s) + rest, 0, true) == Lexed(s, |Quoted(s)|, [])
  {
    QuotedRead(s, rest, true);
  }

  /** As written, a string comes back unchanged when no space stands just before an escaped code unit. */
  lemma RoundTripAsWritten(s: seq<CodeUnit>, rest: seq<CodeUnit>)
    requires SpaceSafe(s)
    ensures StringAt(Quoted(s) + rest, 0, false) == Lexed(s, |Quoted(s)|, [])
  {
    QuotedRead(s, rest, false);
  }

  /** `JSON.stringify` of `a`, space, line feed. */
  function Sample(): seq<CodeUnit> {
    [Quote, 'a' as CodeUnit, Space, Backslash, 'n' as CodeUnit, Quote]
  }

  lemma QuotedSpaceLineFeed()
    ensures Quoted(['a' as CodeUnit, Space, LineFeed]) == Sample()
  {
    var s := ['a' as CodeUnit, Space, LineFeed];
    assert s[1..] == [Space, LineFeed] && s[1..][1..] == [LineFeed] && s[1..][1..][1..] == [];
    assert Escape([LineFeed]) == [Backslash, 'n' as CodeUnit] + Escape([]);
    assert Escape([Space, LineFeed]) == [Space] + Escape([LineFeed]);
    assert Escape(s) == ['a' as CodeUnit] + Escape([Space, LineFeed]);
  }

  lemma SampleLetter()
    ensures StringLoop(Sample(), true, false, Lexed(Scan([], [], false), 1, []))
         == StringLoop(Sample(), true, false, Lexed(Scan(['a' as CodeUnit], [], false), 2, []))
  {
    assert Sample()[1..2] == ['a' as CodeUnit] == EscapeUnit('a' as CodeUnit);
    UnitStep(Sample(), false, Scan([], [], false), 1, 'a' as CodeUnit, []);
    assert Decoded(false, Scan([], [], false), 'a' as CodeUnit) == Scan(['a' as CodeUnit], [], false);
  }

  lemma SampleSpace()
    ensures StringLoop(Sample(), true, false, Lexed(Scan(['a' as CodeUnit], [], false), 2, []))
         == StringLoop(Sample(), true, false, Lexed(Scan(['a' as CodeUnit], [Space], false), 3, []))
  {
    assert Sample()[2..3] == [Space] == EscapeUnit(Space);
    UnitStep(Sample(), false, Scan(['a' as CodeUnit], [], false), 2, Space, []);
    assert Decoded(false, Scan(['a' as CodeUnit], [], false), Space) == Scan(['a' as CodeUnit], [Space], false);
  }

  lemma SampleLineFeed()
    ensures StringLoop(Sample(), true, false, Lexed(Scan(['a' as CodeUnit], [Space], false), 3, []))
         == Lexed(Scan(['a' as CodeUnit, LineFeed], [Space], false), 5, [])
  {
    var st := Scan(['a' as CodeUnit, LineFeed], [Space], false);
    assert Sample()[3..5] == EscapeUnit(LineFeed);
    UnitStep(Sample(), false, Scan(['a' as CodeUnit], [Space], false), 3, LineFeed, []);
    assert Decoded(false, Scan(['a' as CodeUnit], [Space], false), LineFeed) == st;
    assert StringLoop(Sample(), true, false, Lexed(st, 5, [])) == Lexed(st, 5, []);
  }

  /**
   * As written, `JSON.stringify` of `a`, space, line feed reads back as `a`, line feed, space:
   * the space is still held back when the escaped line feed is appended.
   */
  lemma SpaceBeforeEscapeAsWritten()
    ensures var s := ['a' as CodeUnit, Space, LineFeed];
      StringAt(Quoted(s), 0, false).value == ['a' as CodeUnit, LineFeed, Space] != s
  {
    QuotedSpaceLineFeed();
    SampleLetter();
    SampleSpace();
    SampleLineFeed();
  }
}
