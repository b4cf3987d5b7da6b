/**
 * The few pieces of JavaScript string semantics the task screens and the
 * repository rely on: `String.prototype.trim`, the truthiness of a string
 * under `||`, and whether `Number(s)` is a number rather than NaN.
 */
module JsText {

  /** WhiteSpace and LineTerminator code points of ECMA-262 (section 12.2 and 12.3),
      the set that both `trim` and `Number()` strip. */
  predicate IsWhitespace(c: char) {
    || c == '\t' || c == '\U{000B}' || c == '\U{000C}' || c == ' '
    || c == '\U{00A0}' || c == '\U{FEFF}' || c == '\n' || c == '\r'
    || c == '\U{2028}' || c == '\U{2029}'
    || c == '\U{1680}' || ('\U{2000}' <= c <= '\U{200A}')
    || c == '\U{202F}' || c == '\U{205F}' || c == '\U{3000}'
  }

  /** Drops leading whitespace. */
  function TrimStart(s: string): string {
    if |s| > 0 && IsWhitespace(s[0]) then TrimStart(s[1..]) else s
  }

  /** Drops trailing whitespace. */
  function TrimEnd(s: string): string {
    if |s| > 0 && IsWhitespace(s[|s| - 1]) then TrimEnd(s[..|s| - 1]) else s
  }

  /** `TrimStart(s)` is the suffix of `s` after its leading whitespace, and does not start with whitespace. */
  lemma {:induction false} TrimStartSuffix(s: string)
    ensures var r := TrimStart(s);
      && |r| <= |s| && r == s[|s| - |r|..]
      && (r == [] || !IsWhitespace(r[0]))
      && forall i | 0 <= i < |s| - |r| :: IsWhitespace(s[i])
  {
    if |s| > 0 && IsWhitespace(s[0]) {
      var t := s[1..];
      TrimStartSuffix(t);
      var r := TrimStart(t);
      assert TrimStart(s) == r;
      assert t[|t| - |r|..] == s[|s| - |r|..];
      forall i | 0 <= i < |s| - |r| ensures IsWhitespace(s[i]) {
        if i > 0 {
          assert s[i] == t[i - 1];
        }
      }
    }
  }

  /** `TrimEnd(s)` is the prefix of `s` before its trailing whitespace, and does not end with whitespace. */
  lemma {:induction false} TrimEndPrefix(s: string)
    ensures var r := TrimEnd(s);
      && |r| <= |s| && r == s[..|r|]
      && (r == [] || !IsWhitespace(r[|r| - 1]))
      && forall i | |r| <= i < |s| :: IsWhitespace(s[i])
  {
    if |s| > 0 && IsWhitespace(s[|s| - 1]) {
      var t := s[..|s| - 1];
      TrimEndPrefix(t);
      var r := TrimEnd(t);
      assert TrimEnd(s) == r;
      assert t[..|r|] == s[..|r|];
      forall i | |r| <= i < |s| ensures IsWhitespace(s[i]) {
        if i < |s| - 1 {
          assert s[i] == t[i];
        }
      }
    }
  }

  /** `s.trim()`: a contiguous slice of `s` with no whitespace at either end. */
  function Trim(s: string): (r: string)
    ensures |r| <= |s|
    ensures r == [] || (!IsWhitespace(r[0]) && !IsWhitespace(r[|r| - 1]))
  {
    var e := TrimEnd(s);
    TrimEndPrefix(s);
    TrimStartSuffix(e);
    var r := TrimStart(e);
    assert r != [] ==> r[|r| - 1] == e[|e| - 1];
    r
  }

  /** `trim()` removes exactly the leading and the trailing whitespace: its
      result is the slice of `s` between two runs of whitespace. */
  lemma TrimRemovesEnds(s: string)
    ensures exists i, j | 0 <= i <= j <= |s| ::
      && Trim(s) == s[i..j]
      && (forall k | 0 <= k < i :: IsWhitespace(s[k]))
      && (forall k | j <= k < |s| :: IsWhitespace(s[k]))
  {
    var e := TrimEnd(s);
    TrimEndPrefix(s);
    TrimStartSuffix(e);
    var r := TrimStart(e);
    var i, j := |e| - |r|, |e|;
    assert Trim(s) == s[i..j];
    forall k | 0 <= k < i ensures IsWhitespace(s[k]) {
      assert s[k] == e[k];
    }
  }

  /** A string is blank, nothing left of it after `trim()`, exactly when it is all whitespace. */
  lemma TrimBlank(s: string)
    ensures Trim(s) == [] <==> forall i | 0 <= i < |s| :: IsWhitespace(s[i])
  {
    var e := TrimEnd(s);
    var r := TrimStart(e);
    TrimEndPrefix(s);
    TrimStartSuffix(e);
    if r != [] {
      assert r[0] == s[|e| - |r|];
    }
  }

  /** Trimming a string twice is the same as trimming it once. */
  lemma TrimIdempotent(s: string)
    ensures Trim(Trim(s)) == Trim(s)
  {
    var t := Trim(s);
    assert TrimEnd(t) == t;
    assert TrimStart(t) == t;
  }

  /** JavaScript truthiness of a string under `||`: only the empty string is falsy. */
  predicate Truthy(s: string) {
    s != ""
  }

  // ----- `Number(s)` as StringToNumber of ECMA-262, section 7.1.4.1.1 -----

  predicate IsDigit(c: char) { '0' <= c <= '9' }

  predicate IsHexDigit(c: char) { IsDigit(c) || ('a' <= c <= 'f') || ('A' <= c <= 'F') }

  predicate IsDigits(s: string) {
    |s| > 0 && forall i | 0 <= i < |s| :: IsDigit(s[i])
  }

  /** Index of the first occurrence of `c` in `s`, or `|s|`. */
  function Find(s: string, c: char): (k: nat)
    ensures k <= |s|
    ensures k < |s| ==> s[k] == c
    ensures forall i | 0 <= i < k :: s[i] != c
  {
    if s == [] then 0
    else if s[0] == c then 0
    else 1 + Find(s[1..], c)
  }

  /** Index of the first occurrence of `a` or `b` in `s`, or `|s|`. */
  function FindEither(s: string, a: char, b: char): (k: nat)
    ensures k <= |s|
    ensures k < |s| ==> s[k] == a || s[k] == b
    ensures forall i | 0 <= i < k :: s[i] != a && s[i] != b
  {
    if s == [] then 0
    else if s[0] == a || s[0] == b then 0
    else 1 + FindEither(s[1..], a, b)
  }

  /** Neither of two characters that do not occur is found. */
  lemma {:induction false} FindEitherAbsent(s: string, a: char, b: char)
    requires a !in s && b !in s
    ensures FindEither(s, a, b) == |s|
  {
    if s != [] {
      FindEitherAbsent(s[1..], a, b);
    }
  }

  /** `DecimalDigits . DecimalDigits?`, `. DecimalDigits` or `DecimalDigits`. */
  predicate Mantissa(m: string) {
    var d := Find(m, '.');
    if d == |m| then IsDigits(m)
    else
      && (d == 0 || IsDigits(m[..d]))
      && (d + 1 == |m| || IsDigits(m[d + 1..]))
      && (d > 0 || d + 1 < |m|)
  }

  predicate IsSign(c: char) { c == '+' || c == '-' }

  predicate SignedDigits(s: string) {
    IsDigits(s) || (|s| > 1 && IsSign(s[0]) && IsDigits(s[1..]))
  }

  /** StrUnsignedDecimalLiteral: `Infinity`, or a mantissa with an optional exponent. */
  predicate UnsignedDecimal(s: string) {
    s == "Infinity" ||
    var e := FindEither(s, 'e', 'E');
    Mantissa(s[..e]) && (e == |s| || SignedDigits(s[e + 1..]))
  }

  /** StrDecimalLiteral: an optional sign before an unsigned decimal literal. */
  predicate DecimalLiteral(s: string) {
    UnsignedDecimal(s) || (|s| > 0 && IsSign(s[0]) && UnsignedDecimal(s[1..]))
  }

  /** NonDecimalIntegerLiteral: `0x`, `0o` or `0b` followed by at least one digit of that base. */
  predicate NonDecimalLiteral(s: string) {
    && |s| > 2 && s[0] == '0'
    && (|| ((s[1] == 'x' || s[1] == 'X') && forall i | 2 <= i < |s| :: IsHexDigit(s[i]))
        || ((s[1] == 'o' || s[1] == 'O') && forall i | 2 <= i < |s| :: '0' <= s[i] <= '7')
        || ((s[1] == 'b' || s[1] == 'B') && forall i | 2 <= i < |s| :: s[i] == '0' || s[i] == '1'))
  }

  /** `!isNaN(Number(s))`: after trimming, `s` is empty (which reads as 0) or a numeric literal. */
  predicate IsNumeric(s: string) {
    var t := Trim(s);
    t == "" || DecimalLiteral(t) || NonDecimalLiteral(t)
  }

  /** A string without whitespace at either end is its own trim. */
  lemma TrimUnpadded(s: string)
    requires s == [] || (!IsWhitespace(s[0]) && !IsWhitespace(s[|s| - 1]))
    ensures Trim(s) == s
  {
  }

  lemma PaddedFractionIsNumeric()
    ensures IsNumeric(" 2.5 ")
  {
    assert TrimEnd(" 2.5 ") == " 2.5";
    assert TrimStart(" 2.5") == "2.5";
    FindEitherAbsent("2.5", 'e', 'E');
    assert Find("2.5", '.') == 1;
    assert IsDigits("2") && IsDigits("5");
  }

  lemma HexIsNumeric()
    ensures IsNumeric("0x1F")
  {
    TrimUnpadded("0x1F");
  }

  lemma SignedInfinityIsNumeric()
    ensures IsNumeric("-Infinity")
  {
    TrimUnpadded("-Infinity");
    assert "-Infinity"[1..] == "Infinity";
  }

  lemma IntegerIsNumeric()
    ensures IsNumeric("42")
  {
    TrimUnpadded("42");
    assert FindEither("42", 'e', 'E') == 2;
    assert Find("42", '.') == 2;
  }

  lemma ExponentIsNumeric()
    ensures IsNumeric("1e3")
  {
    TrimUnpadded("1e3");
    assert FindEither("1e3", 'e', 'E') == 1;
    assert Find("1", '.') == 1;
    assert "1e3"[2..] == "3" && IsDigits("3");
  }

  lemma LeadingPointIsNumeric()
    ensures IsNumeric(".5")
  {
    TrimUnpadded(".5");
    assert FindEither(".5", 'e', 'E') == 2;
    assert Find(".5", '.') == 0;
    assert ".5"[1..] == "5" && IsDigits("5");
  }

  lemma BareHexPrefixNotNumeric()
    ensures !IsNumeric("0x")
  {
    TrimUnpadded("0x");
    assert FindEither("0x", 'e', 'E') == 2;
    assert Find("0x", '.') == 2;
    assert !IsDigits("0x") by { assert !IsDigit("0x"[1]); }
    assert !IsDigits("x") by { assert !IsDigit("x"[0]); }
  }

  lemma SignedHexNotNumeric()
    ensures !IsNumeric("-0x1")
  {
    TrimUnpadded("-0x1");
    assert FindEither("-0x1", 'e', 'E') == 4;
    assert Find("-0x1", '.') == 4;
    assert !IsDigits("-0x1") by { assert !IsDigit("-0x1"[0]); }
    assert "-0x1"[1..] == "0x1";
    assert FindEither("0x1", 'e', 'E') == 3;
    assert Find("0x1", '.') == 3;
    assert !IsDigits("0x1") by { assert !IsDigit("0x1"[1]); }
  }

  lemma TrailingLetterNotNumeric()
    ensures !IsNumeric("12a")
  {
    TrimUnpadded("12a");
    assert FindEither("12a", 'e', 'E') == 3;
    assert Find("12a", '.') == 3;
    assert !IsDigits("12a") by { assert !IsDigit("12a"[2]); }
    assert !IsDigits("2a") by { assert !IsDigit("2a"[1]); }
  }

  lemma InnerSpaceNotNumeric()
    ensures !IsNumeric("1 2")
  {
    TrimUnpadded("1 2");
    assert FindEither("1 2", 'e', 'E') == 3;
    assert Find("1 2", '.') == 3;
    assert !IsDigits("1 2") by { assert !IsDigit("1 2"[1]); }
    assert !IsDigits(" 2") by { assert !IsDigit(" 2"[0]); }
  }

  lemma LonePointNotNumeric()
    ensures !IsNumeric(".")
  {
    TrimUnpadded(".");
    assert FindEither(".", 'e', 'E') == 1;
    assert Find(".", '.') == 0;
  }

  /** Timer fields `Number()` reads as numbers: an integer, a padded fraction,
      the empty string, an exponent, a leading point, a hexadecimal numeral and
      a signed infinity. */
  lemma NumericExamples()
    ensures IsNumeric("42") && IsNumeric(" 2.5 ") && IsNumeric("") && IsNumeric("1e3")
    ensures IsNumeric(".5") && IsNumeric("0x1F") && IsNumeric("-Infinity")
  {
    IntegerIsNumeric();
    ExponentIsNumeric();
    LeadingPointIsNumeric();
    PaddedFractionIsNumeric();
    HexIsNumeric();
    SignedInfinityIsNumeric();
  }

  /** Timer fields `Number()` reads as NaN: trailing letters, an inner space,
      a lone point, a bare hexadecimal prefix and a signed hexadecimal numeral. */
  lemma NotNumericExamples()
    ensures !IsNumeric("12a") && !IsNumeric("1 2") && !IsNumeric(".")
    ensures !IsNumeric("0x") && !IsNumeric("-0x1")
  {
    BareHexPrefixNotNumeric();
    SignedHexNotNumeric();
    TrailingLetterNotNumeric();
    InnerSpaceNotNumeric();
    LonePointNotNumeric();
  }

  /** `!timer || !isNaN(Number(timer))`: a timer field is accepted when it is
      empty or `Number()` reads it as a number. */
  predicate TimerAccepted(timer: string) {
    timer == "" || IsNumeric(timer)
  }

  /** Trimming keeps the verdict of `Number()`: it trims its argument itself. */
  lemma NumericTrimmed(s: string)
    ensures IsNumeric(Trim(s)) == IsNumeric(s)
  {
    TrimIdempotent(s);
  }
}
