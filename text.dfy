/** Reference definitions over code-unit sequences that the lexers are proved against. */
module Text {
  import opened CodeUnits

  /** `s` with every whitespace code unit removed (the tests' `replace(/[ \t\n\r]/g, "")`). */
  function StripWhitespace(s: seq<CodeUnit>): (r: seq<CodeUnit>)
  {
    if s == [] then []
    else StripWhitespace(s[..|s| - 1]) + (if IsWhitespace(s[|s| - 1]) then [] else [s[|s| - 1]])
  }

  lemma {:induction false} StripWhitespaceAppend(a: seq<CodeUnit>, b: seq<CodeUnit>)
    ensures StripWhitespace(a + b) == StripWhitespace(a) + StripWhitespace(b)
    decreases |b|
  {
    if b != [] {
      var b' := b[..|b| - 1];
      assert (a + b)[..|a + b| - 1] == a + b';
      StripWhitespaceAppend(a, b');
    } else {
      assert a + b == a;
    }
  }

  lemma {:induction false} StripWhitespaceOfNoWhitespace(s: seq<CodeUnit>)
    requires forall k | 0 <= k < |s| :: !IsWhitespace(s[k])
    ensures StripWhitespace(s) == s
  {
    if s != [] {
      StripWhitespaceOfNoWhitespace(s[..|s| - 1]);
    }
  }

  lemma {:induction false} StripWhitespaceOfAllWhitespace(s: seq<CodeUnit>)
    requires forall k | 0 <= k < |s| :: IsWhitespace(s[k])
    ensures StripWhitespace(s) == []
  {
    if s != [] {
      StripWhitespaceOfAllWhitespace(s[..|s| - 1]);
    }
  }

  predicate AllDigits(s: seq<CodeUnit>) {
    forall k | 0 <= k < |s| :: IsDigit(s[k])
  }

  /** The value of a decimal numeral, most significant digit first; 0 for the empty numeral. */
  function DecimalValue(s: seq<CodeUnit>): nat
    requires AllDigits(s)
  {
    if s == [] then 0
    else
      var last := s[|s| - 1];
      DecimalValue(s[..|s| - 1]) * 10 + (last as int - Zero as int)
  }

  lemma DecimalValueSnoc(s: seq<CodeUnit>, c: CodeUnit)
    requires AllDigits(s) && IsDigit(c)
    ensures AllDigits(s + [c]) && DecimalValue(s + [c]) == DecimalValue(s) * 10 + (c as int - Zero as int)
  {
    assert (s + [c])[..|s|] == s;
  }

  /** The shortest decimal numeral of `n`, as JavaScript's `String(n)` writes a safe integer. */
  function DecimalText(n: nat): (s: seq<CodeUnit>)
    ensures s != [] && AllDigits(s)
    ensures |s| > 1 ==> s[0] != Zero
  {
    if n < 10 then [Zero + n as CodeUnit]
    else DecimalText(n / 10) + [Zero + (n % 10) as CodeUnit]
  }

  lemma {:induction false} DecimalTextRoundTrip(n: nat)
    ensures DecimalValue(DecimalText(n)) == n
  {
    if n >= 10 {
      DecimalTextRoundTrip(n / 10);
      DecimalValueSnoc(DecimalText(n / 10), Zero + (n % 10) as CodeUnit);
      assert DecimalText(n) == DecimalText(n / 10) + [Zero + (n % 10) as CodeUnit];
    }
  }

  /** `s` without its leading whitespace. */
  function TrimStart(s: seq<CodeUnit>): (r: seq<CodeUnit>)
  {
    if s != [] && IsWhitespace(s[0]) then TrimStart(s[1..]) else s
  }

  /** `s` without its trailing whitespace. */
  function TrimEnd(s: seq<CodeUnit>): (r: seq<CodeUnit>)
    ensures |r| <= |s|
  {
    if s != [] && IsWhitespace(s[|s| - 1]) then TrimEnd(s[..|s| - 1]) else s
  }

  /** JavaScript's `String.prototype.trim` restricted to the lexer's four whitespace code units. */
  function Trim(s: seq<CodeUnit>): seq<CodeUnit> {
    TrimEnd(TrimStart(s))
  }

  /** `TrimStart` removes exactly the leading whitespace: it is a suffix, and what it drops is whitespace. */
  lemma {:induction false} TrimStartShape(s: seq<CodeUnit>)
    ensures |TrimStart(s)| <= |s| && TrimStart(s) == s[|s| - |TrimStart(s)|..]
    ensures forall j | 0 <= j < |s| - |TrimStart(s)| :: IsWhitespace(s[j])
    ensures TrimStart(s) != [] ==> !IsWhitespace(TrimStart(s)[0])
  {
    if s != [] && IsWhitespace(s[0]) {
      var s' := s[1..];
      TrimStartShape(s');
      var n := |TrimStart(s')|;
      assert s'[|s'| - n..] == s[|s| - n..];
      forall j | 0 <= j < |s| - n
        ensures IsWhitespace(s[j])
      {
        if j > 0 {
          assert s[j] == s'[j - 1];
        }
      }
    }
  }

  lemma {:induction false} TrimStartOfSuffix(s: seq<CodeUnit>, k: nat)
    requires k <= |s|
    requires forall j | 0 <= j < k :: IsWhitespace(s[j])
    requires k < |s| ==> !IsWhitespace(s[k])
    ensures TrimStart(s) == s[k..]
  {
    if k > 0 {
      assert s[1..][k - 1..] == s[k..];
      TrimStartOfSuffix(s[1..], k - 1);
    }
  }

  /** `TrimEnd` removes exactly the trailing whitespace: it is a prefix, and what it drops is whitespace. */
  lemma {:induction false} TrimEndShape(s: seq<CodeUnit>)
    ensures |TrimEnd(s)| <= |s| && s[..|TrimEnd(s)|] == TrimEnd(s)
    ensures forall k | |TrimEnd(s)| <= k < |s| :: IsWhitespace(s[k])
    ensures TrimEnd(s) != [] ==> !IsWhitespace(TrimEnd(s)[|TrimEnd(s)| - 1])
  {
    if s != [] && IsWhitespace(s[|s| - 1]) {
      var s' := s[..|s| - 1];
      TrimEndShape(s');
      assert s[..|TrimEnd(s')|] == s'[..|TrimEnd(s')|];
    }
  }

  /** Whitespace alone trims to nothing. */
  lemma {:induction false} TrimEndOfAllWhitespace(s: seq<CodeUnit>)
    requires forall k | 0 <= k < |s| :: IsWhitespace(s[k])
    ensures TrimEnd(s) == []
  {
    if s != [] {
      TrimEndOfAllWhitespace(s[..|s| - 1]);
    }
  }

  /** Text ending in something other than whitespace is never trimmed into. */
  lemma {:induction false} TrimEndAfter(a: seq<CodeUnit>, b: seq<CodeUnit>)
    requires a != [] && !IsWhitespace(a[|a| - 1])
    ensures TrimEnd(a + b) == a + TrimEnd(b)
    decreases |b|
  {
    if b == [] {
      assert a + b == a;
    } else if IsWhitespace(b[|b| - 1]) {
      assert (a + b)[..|a + b| - 1] == a + b[..|b| - 1];
      TrimEndAfter(a, b[..|b| - 1]);
    }
  }

  function CountDigits(s: seq<CodeUnit>): nat
  {
    if s == [] then 0 else CountDigits(s[..|s| - 1]) + (if IsDigit(s[|s| - 1]) then 1 else 0)
  }

  lemma {:induction false} CountDigitsAppend(a: seq<CodeUnit>, b: seq<CodeUnit>)
    ensures CountDigits(a + b) == CountDigits(a) + CountDigits(b)
    decreases |b|
  {
    if b != [] {
      assert (a + b)[..|a + b| - 1] == a + b[..|b| - 1];
      CountDigitsAppend(a, b[..|b| - 1]);
    } else {
      assert a + b == a;
    }
  }

  lemma {:induction false} CountDigitsOfStrip(s: seq<CodeUnit>)
    requires forall k | 0 <= k < |s| :: IsDigit(s[k]) || IsWhitespace(s[k])
    ensures CountDigits(s) == |StripWhitespace(s)|
  {
    if s != [] {
      CountDigitsOfStrip(s[..|s| - 1]);
    }
  }

  lemma {:induction false} CountDigitsZero(s: seq<CodeUnit>)
    ensures CountDigits(s) == 0 <==> forall k | 0 <= k < |s| :: !IsDigit(s[k])
  {
    if s != [] {
      CountDigitsZero(s[..|s| - 1]);
      assert forall k | 0 <= k < |s| - 1 :: s[..|s| - 1][k] == s[k];
    }
  }
}
