/**
 * The values the tracker compares and JavaScript's loose inequality `!=`
 * between them. An effective value is either a string or the boolean
 * `false`, which the plugin uses as a "no value" sentinel.
 */
module LooseEquality {

  /** An effective value: the sentinel `false`, or a string. */
  datatype Value = NoValue | Str(s: string)

  /** StrWhiteSpaceChar of ECMAScript: the characters `Number(s)` strips from both ends. */
  predicate IsJsWhitespace(c: char) {
    || c == '\t' || c == '\n' || c == '\U{B}' || c == '\U{C}' || c == '\r'
    || c == ' ' || c == '\U{A0}' || c == '\U{1680}'
    || ('\U{2000}' <= c <= '\U{200A}')
    || c == '\U{2028}' || c == '\U{2029}' || c == '\U{202F}' || c == '\U{205F}'
    || c == '\U{3000}' || c == '\U{FEFF}'
  }

  predicate IsDigit(c: char) {
    '0' <= c <= '9'
  }

  /** The letter after the leading `0` of a hexadecimal, octal or binary literal. */
  predicate IsRadixLetter(c: char) {
    c == 'x' || c == 'X' || c == 'o' || c == 'O' || c == 'b' || c == 'B'
  }

  /**
   * How far a left-to-right reading of a string has got in the grammar of
   * numeric strings (StringNumericLiteral of ECMAScript), keeping only
   * literals of value zero: white space, an optional sign, a mantissa of
   * zeros with at most one point and at least one digit, an optional
   * exponent, or an unsigned `0x`/`0o`/`0b` literal of zeros, then white
   * space. `Reject` is reached by every other string and is never left.
   */
  datatype Phase =
    | Start        // only white space so far
    | Signed       // a `+` or `-` and nothing else yet
    | LeadingZero  // one unsigned `0`, which may begin a radix prefix
    | IntZeros     // the zeros of an integer part
    | BarePoint    // a point with no digit before it
    | FracZeros    // a point after a digit, or zeros after a point
    | ExpMark      // an `e` or `E`
    | ExpSign      // the sign of an exponent
    | ExpDigits    // the digits of an exponent
    | RadixMark    // `0x`, `0o` or `0b`
    | RadixZeros   // the zeros after a radix prefix
    | Trailing     // white space after a complete literal
    | Reject

  /** The phases in which the string read so far converts to 0. */
  predicate IsFinal(p: Phase) {
    p.Start? || p.LeadingZero? || p.IntZeros? || p.FracZeros? || p.ExpDigits? || p.RadixZeros? || p.Trailing?
  }

  /** After a complete literal, only white space may follow. */
  function AfterLiteral(c: char): Phase {
    if IsJsWhitespace(c) then Trailing else Reject
  }

  /** What may follow the integer zeros of a mantissa. */
  function AfterIntZero(c: char): Phase {
    if c == '0' then IntZeros
    else if c == '.' then FracZeros
    else if c == 'e' || c == 'E' then ExpMark
    else AfterLiteral(c)
  }

  /** The phase after reading `c` in phase `p`. */
  function Step(p: Phase, c: char): (q: Phase)
    ensures p == Reject ==> q == Reject
  {
    match p
    case Start =>
      if IsJsWhitespace(c) then Start
      else if c == '+' || c == '-' then Signed
      else if c == '0' then LeadingZero
      else if c == '.' then BarePoint
      else Reject
    case Signed =>
      if c == '0' then IntZeros else if c == '.' then BarePoint else Reject
    case LeadingZero =>
      if IsRadixLetter(c) then RadixMark else AfterIntZero(c)
    case IntZeros => AfterIntZero(c)
    case BarePoint => if c == '0' then FracZeros else Reject
    case FracZeros =>
      if c == '0' then FracZeros else if c == 'e' || c == 'E' then ExpMark else AfterLiteral(c)
    case ExpMark =>
      if c == '+' || c == '-' then ExpSign else if IsDigit(c) then ExpDigits else Reject
    case ExpSign => if IsDigit(c) then ExpDigits else Reject
    case ExpDigits => if IsDigit(c) then ExpDigits else AfterLiteral(c)
    case RadixMark => if c == '0' then RadixZeros else Reject
    case RadixZeros => if c == '0' then RadixZeros else AfterLiteral(c)
    case Trailing => AfterLiteral(c)
    case Reject => Reject
  }

  /** Reading the rest of a string from phase `p` ends in a final phase. */
  predicate Accepts(p: Phase, s: string)
    decreases |s|
  {
    if s == [] then IsFinal(p) else Accepts(Step(p, s[0]), s[1..])
  }

  /** A string made of white space only, the empty string included. */
  predicate IsBlank(s: string) {
    s == [] || (IsJsWhitespace(s[0]) && IsBlank(s[1..]))
  }

  /**
   * The strings that JavaScript converts to the number 0 (or -0), so that
   * `false == s` holds.
   */
  predicate ZeroLike(s: string)
    ensures IsBlank(s) ==> ZeroLike(s)
    ensures s != [] && !IsJsWhitespace(s[0]) && !(s[0] in "+-0.") ==> !ZeroLike(s)
  {
    BlankAccepted(s);
    RejectIsFinalVerdict(if s == [] then s else s[1..]);
    Accepts(Start, s)
  }

  /** White space read from the start leaves the reading at the start, which is final. */
  lemma {:induction false} BlankAccepted(s: string)
    ensures IsBlank(s) ==> Accepts(Start, s)
  {
    if s != [] && IsBlank(s) {
      BlankAccepted(s[1..]);
    }
  }

  /** Once rejected, a string stays rejected whatever follows. */
  lemma {:induction false} RejectIsFinalVerdict(s: string)
    ensures !Accepts(Reject, s)
  {
    if s != [] {
      RejectIsFinalVerdict(s[1..]);
    }
  }

  /**
   * `a != b` in JavaScript for two effective values. Two strings are
   * compared as strings; `false` equals `false`; `false` and a string are
   * both converted to numbers, so they are equal exactly when the string
   * converts to 0.
   */
  predicate LooselyDiffers(a: Value, b: Value)
    ensures LooselyDiffers(a, b) ==> a != b
    ensures a.Str? && b.Str? ==> (LooselyDiffers(a, b) <==> a.s != b.s)
    ensures a.NoValue? && b.Str? ==> (LooselyDiffers(a, b) <==> !ZeroLike(b.s))
    ensures a.Str? && b.NoValue? ==> (LooselyDiffers(a, b) <==> !ZeroLike(a.s))
  {
    match (a, b)
    case (Str(x), Str(y)) => x != y
    case (NoValue, NoValue) => false
    case (NoValue, Str(y)) => !ZeroLike(y)
    case (Str(x), NoValue) => !ZeroLike(x)
  }

  /** The facts the tracker relies upon: "" and "0" convert to 0. */
  lemma ZeroLikeEmptyAndZero()
    ensures ZeroLike("") && ZeroLike("0")
  {
  }

  lemma ZeroLikeSignedFraction()
    ensures ZeroLike(" -0.0 ")
  {
  }

  lemma ZeroLikeHex()
    ensures ZeroLike("0x00")
  {
  }

  lemma NotZeroLikeWord()
    ensures !ZeroLike("abc")
  {
  }

  lemma NotZeroLikeOne()
    ensures !ZeroLike("1")
  {
  }

  lemma NotZeroLikePoint()
    ensures !ZeroLike(".")
  {
  }

  /** A browser's default checkbox value. */
  lemma NotZeroLikeOn()
    ensures !ZeroLike("on")
  {
  }

  /** Reading one white space character from any phase settles the verdict so far. */
  lemma {:induction false} SpaceAfter(p: Phase, s: string, c: char)
    requires IsJsWhitespace(c)
    ensures Accepts(p, s + [c]) == Accepts(p, s)
    decreases |s|
  {
    if s == [] {
      assert Accepts(p, [c]) == Accepts(Step(p, c), []);
    } else {
      assert (s + [c])[0] == s[0] && (s + [c])[1..] == s[1..] + [c];
      SpaceAfter(Step(p, s[0]), s[1..], c);
    }
  }

  /** White space at either end never changes whether a string converts to 0. */
  lemma EdgeSpaceIgnored(s: string, c: char)
    requires IsJsWhitespace(c)
    ensures ZeroLike([c] + s) == ZeroLike(s)
    ensures ZeroLike(s + [c]) == ZeroLike(s)
  {
    assert ([c] + s)[1..] == s;
    SpaceAfter(Start, s, c);
  }

  /** JavaScript's `!=` does not depend on the order of its operands. */
  lemma LooselyDiffersSymmetric(a: Value, b: Value)
    ensures LooselyDiffers(a, b) == LooselyDiffers(b, a)
  {
  }

  /** No value differs loosely from itself. */
  lemma LooselyDiffersIrreflexive(a: Value)
    ensures !LooselyDiffers(a, a)
  {
  }

  /**
   * Loose inequality implies real inequality, and the only distinct values
   * it calls equal are the sentinel and a zero-like string.
   */
  lemma LooseEqualityIsCoarser(a: Value, b: Value)
    ensures (a != b && !LooselyDiffers(a, b)) <==>
            ((a == NoValue && b.Str? && ZeroLike(b.s)) || (b == NoValue && a.Str? && ZeroLike(a.s)))
  {
  }

  /** The sentinel is loosely equal to the empty string and to "0". */
  lemma SentinelEqualsEmptyAndZero()
    ensures !LooselyDiffers(NoValue, Str("")) && !LooselyDiffers(NoValue, Str("0"))
  {
    ZeroLikeEmptyAndZero();
  }
}
