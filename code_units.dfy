/**
 * Code units and the lookup tables of the lexers.
 *
 * JavaScript strings are indexed by UTF-16 code units (`this._data[idx]`), so the input is a
 * sequence of 16-bit values rather than of Dafny `char`s, which exclude the surrogate range.
 */
module CodeUnits {
  import opened Wrappers

  newtype CodeUnit = x: int | 0 <= x < 0x1_0000

  const Space: CodeUnit := ' ' as CodeUnit
  const Tab: CodeUnit := '\t' as CodeUnit
  const LineFeed: CodeUnit := '\n' as CodeUnit
  const CarriageReturn: CodeUnit := '\r' as CodeUnit
  const Quote: CodeUnit := '"' as CodeUnit
  const Backslash: CodeUnit := '\\' as CodeUnit
  const Slash: CodeUnit := '/' as CodeUnit
  const Minus: CodeUnit := '-' as CodeUnit
  const Plus: CodeUnit := '+' as CodeUnit
  const Dot: CodeUnit := '.' as CodeUnit
  const LowerE: CodeUnit := 'e' as CodeUnit
  const UpperE: CodeUnit := 'E' as CodeUnit
  const LowerU: CodeUnit := 'u' as CodeUnit
  const Zero: CodeUnit := '0' as CodeUnit
  const Nine: CodeUnit := '9' as CodeUnit

  /** Membership in `whitespaceChars`: space, tab, line feed and carriage return. */
  predicate IsWhitespace(c: CodeUnit) {
    c == Space || c == Tab || c == LineFeed || c == CarriageReturn
  }

  predicate IsDigit(c: CodeUnit) {
    Zero <= c <= Nine
  }

  /** The `digitValue` table: the value of a decimal digit, absent for any other code unit. */
  function DigitValue(c: CodeUnit): (r: Option<nat>)
    ensures r.Some? <==> IsDigit(c)
    ensures r.Some? ==> r.value < 10
  {
    if IsDigit(c) then Some((c - Zero) as nat) else None
  }

  /** The `hexDigitValue` table: decimal digits and the letters a-f in either case. */
  function HexDigitValue(c: CodeUnit): (r: Option<nat>)
    ensures r.Some? ==> r.value < 16
    ensures IsDigit(c) ==> r == DigitValue(c)
    ensures 'a' as CodeUnit <= c <= 'f' as CodeUnit ==> r == Some((c - 'a' as CodeUnit) as nat + 10)
    ensures 'A' as CodeUnit <= c <= 'F' as CodeUnit ==> r == Some((c - 'A' as CodeUnit) as nat + 10)
    ensures r.Some? <==> IsDigit(c) || 'a' as CodeUnit <= c <= 'f' as CodeUnit || 'A' as CodeUnit <= c <= 'F' as CodeUnit
  {
    if IsDigit(c) then Some((c - Zero) as nat)
    else if 'a' as CodeUnit <= c <= 'f' as CodeUnit then Some((c - 'a' as CodeUnit) as nat + 10)
    else if 'A' as CodeUnit <= c <= 'F' as CodeUnit then Some((c - 'A' as CodeUnit) as nat + 10)
    else None
  }

  /**
   * The `stringEscapes` table: the code unit that `\c` stands for. It is the escape set of
   * section 7 of RFC 8259 minus `\u`, which the string lexer handles on its own.
   */
  function EscapeOf(c: CodeUnit): (r: Option<CodeUnit>)
    ensures r.Some? ==> r.value == c || r.value < 0x20
    ensures c == LowerU || IsDigit(c) || IsWhitespace(c) ==> r.None?
    ensures r.Some? <==> c == Quote || c == Backslash || c == Slash || c == 'b' as CodeUnit
                         || c == 'f' as CodeUnit || c == 'n' as CodeUnit || c == 'r' as CodeUnit || c == 't' as CodeUnit
    ensures c == Quote || c == Backslash || c == Slash ==> r == Some(c)
  {
    if c == Quote then Some(Quote)
    else if c == Backslash then Some(Backslash)
    else if c == Slash then Some(Slash)
    else if c == 'b' as CodeUnit then Some(0x08)
    else if c == 'f' as CodeUnit then Some(0x0C)
    else if c == 'n' as CodeUnit then Some(LineFeed)
    else if c == 'r' as CodeUnit then Some(CarriageReturn)
    else if c == 't' as CodeUnit then Some(Tab)
    else None
  }

  /** Upper- and lower-case hex letters have the same value, as `hexDigitValue` lists both cases. */
  lemma HexDigitCaseInsensitive(c: CodeUnit)
    requires 'A' as CodeUnit <= c <= 'F' as CodeUnit
    ensures HexDigitValue(c) == HexDigitValue(c + 0x20) == Some((c - 'A' as CodeUnit) as nat + 10)
  {
  }
}
