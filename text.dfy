/**
 * The JavaScript string operations the catalog relies on, over `seq<char>`:
 * relational `<`, `trim`, `toLowerCase`, `includes`, `String(n)` of an integer
 * and the test `isNaN(Number(s))`.
 */
module Text {

  // ---------------------------------------------------------------------------
  // Relational comparison `a < b` of two strings
  // ---------------------------------------------------------------------------

  /** `a < b` on strings: lexicographic by character, a proper prefix first. */
  predicate StrLess(a: string, b: string)
  {
    if a == [] then b != []
    else if b == [] then false
    else if a[0] != b[0] then a[0] < b[0]
    else StrLess(a[1..], b[1..])
  }

  /** `a` and `b` agree before index `i` and differ at `i`. */
  ghost predicate DiffersFirstAt(a: string, b: string, i: int)
  {
    0 <= i < |a| && i < |b| && a[..i] == b[..i] && a[i] != b[i]
  }

  /** The reference reading of string order: a proper prefix, or a smaller character at the first difference. */
  ghost predicate LexLess(a: string, b: string)
  {
    (|a| < |b| && a == b[..|a|]) || exists i :: DiffersFirstAt(a, b, i) && a[i] < b[i]
  }

  lemma {:induction false} StrLessIsLexLess(a: string, b: string)
    ensures StrLess(a, b) <==> LexLess(a, b)
  {
    if a == [] || b == [] {
      assert forall i :: !DiffersFirstAt(a, b, i);
    } else if a[0] != b[0] {
      assert DiffersFirstAt(a, b, 0);
      assert forall i :: DiffersFirstAt(a, b, i) ==> i == 0;
      assert !(|a| < |b| && a == b[..|a|]);
    } else {
      StrLessIsLexLess(a[1..], b[1..]);
      var a', b' := a[1..], b[1..];
      assert a == [a[0]] + a' && b == [b[0]] + b';
      if StrLess(a', b') {
        if |a'| < |b'| && a' == b'[..|a'|] {
          assert b[..|a|] == [b[0]] + b'[..|a'|];
        } else {
          var i :| DiffersFirstAt(a', b', i) && a'[i] < b'[i];
          assert a[..i + 1] == [a[0]] + a'[..i] && b[..i + 1] == [b[0]] + b'[..i];
          assert DiffersFirstAt(a, b, i + 1);
        }
      } else {
        forall i | DiffersFirstAt(a, b, i) ensures a[i] > b[i] {
          assert a'[..i - 1] == a[..i][1..] && b'[..i - 1] == b[..i][1..];
          assert DiffersFirstAt(a', b', i - 1);
        }
      }
    }
  }

  lemma {:induction false} StrLessIrreflexive(a: string)
    ensures !StrLess(a, a)
  {
    if a != [] {
      StrLessIrreflexive(a[1..]);
    }
  }

  lemma {:induction false} StrLessTransitive(a: string, b: string, c: string)
    requires StrLess(a, b) && StrLess(b, c)
    ensures StrLess(a, c)
  {
    if a != [] && a[0] == b[0] && b[0] == c[0] {
      StrLessTransitive(a[1..], b[1..], c[1..]);
    }
  }

  /** Any two different strings are ordered one way or the other. */
  lemma {:induction false} StrLessTotal(a: string, b: string)
    ensures a == b || StrLess(a, b) || StrLess(b, a)
  {
    if a != [] && b != [] && a[0] == b[0] {
      StrLessTotal(a[1..], b[1..]);
      if a[1..] == b[1..] {
        assert a == [a[0]] + a[1..] && b == [b[0]] + b[1..];
      }
    }
  }

  // ---------------------------------------------------------------------------
  // Whitespace and `trim`
  // ---------------------------------------------------------------------------

  /**
   * ECMAScript WhiteSpace or LineTerminator: TAB, LF, VT, FF, CR, the space
   * separators (Unicode category Zs), LINE and PARAGRAPH SEPARATOR and the
   * byte order mark. `trim` strips these, and `Number` ignores them around a literal.
   */
  predicate IsJsWhitespace(c: char)
  {
    var n := c as int;
    (0x09 <= n <= 0x0D) || n == 0x20 || n == 0xA0 || n == 0x1680
    || (0x2000 <= n <= 0x200A) || n == 0x2028 || n == 0x2029 || n == 0x202F
    || n == 0x205F || n == 0x3000 || n == 0xFEFF
  }

  predicate IsBlank(s: string)
  {
    forall i :: 0 <= i < |s| ==> IsJsWhitespace(s[i])
  }

  /** `s` with its leading whitespace removed. */
  function TrimStart(s: string): (r: string)
    ensures |r| <= |s| && r == s[|s| - |r|..]
    ensures IsBlank(s[..|s| - |r|])
    ensures r == [] || !IsJsWhitespace(r[0])
  {
    if s != [] && IsJsWhitespace(s[0]) then TrimStart(s[1..]) else s
  }

  /** `s` with its trailing whitespace removed. */
  function TrimEnd(s: string): (r: string)
    ensures |r| <= |s| && r == s[..|r|]
    ensures IsBlank(s[|r|..])
    ensures r == [] || !IsJsWhitespace(r[|r| - 1])
  {
    if s != [] && IsJsWhitespace(s[|s| - 1]) then TrimEnd(s[..|s| - 1]) else s
  }

  /** `s.trim()`. */
  function Trim(s: string): string
  {
    TrimEnd(TrimStart(s))
  }

  /** A term trims to the empty string exactly when it is empty or all whitespace. */
  lemma TrimEmptyIffBlank(s: string)
    ensures Trim(s) == [] <==> IsBlank(s)
  {
    var t := TrimStart(s);
    if Trim(s) == [] {
      assert IsBlank(t[0..]);
      forall i | 0 <= i < |s| ensures IsJsWhitespace(s[i]) {
        assert s[i] == s[..|s| - |t|][i];
      }
    } else {
      assert t != [] && t[0] == s[|s| - |t|];
    }
  }

  /** A string without whitespace is its own trim. */
  lemma TrimNoWhitespace(s: string)
    requires forall i :: 0 <= i < |s| ==> !IsJsWhitespace(s[i])
    ensures Trim(s) == s
  {
    assert TrimStart(s) == s;
  }

  // ---------------------------------------------------------------------------
  // `toLowerCase`
  // ---------------------------------------------------------------------------

  function LowerChar(c: char): char
  {
    if 'A' <= c <= 'Z' then (c as int + 32) as char else c
  }

  /** `s.toLowerCase()` on the ASCII letters; every other character is kept. */
  function ToLower(s: string): (r: string)
    ensures |r| == |s|
    ensures forall i :: 0 <= i < |s| ==> r[i] == LowerChar(s[i])
  {
    if s == [] then [] else [LowerChar(s[0])] + ToLower(s[1..])
  }

  // ---------------------------------------------------------------------------
  // `includes`
  // ---------------------------------------------------------------------------

  predicate StartsWith(s: string, prefix: string)
  {
    |prefix| <= |s| && s[..|prefix|] == prefix
  }

  /** `hay.includes(needle)`. */
  predicate Contains(hay: string, needle: string)
    decreases |hay|
  {
    StartsWith(hay, needle) || (hay != [] && Contains(hay[1..], needle))
  }

  /** `needle` occurs in `hay` starting at index `i`. */
  ghost predicate OccursAt(hay: string, needle: string, i: int)
  {
    0 <= i && i + |needle| <= |hay| && hay[i..i + |needle|] == needle
  }

  lemma {:induction false} ContainsIffOccurs(hay: string, needle: string)
    ensures Contains(hay, needle) <==> exists i :: OccursAt(hay, needle, i)
    decreases |hay|
  {
    if StartsWith(hay, needle) {
      assert OccursAt(hay, needle, 0);
    } else if hay == [] {
      assert forall i :: !OccursAt(hay, needle, i);
    } else {
      ContainsIffOccurs(hay[1..], needle);
      if Contains(hay[1..], needle) {
        var i :| OccursAt(hay[1..], needle, i);
        assert hay[i + 1..i + 1 + |needle|] == hay[1..][i..i + |needle|];
        assert OccursAt(hay, needle, i + 1);
      } else {
        forall i | OccursAt(hay, needle, i) ensures false {
          assert hay[1..][i - 1..i - 1 + |needle|] == hay[i..i + |needle|];
          assert OccursAt(hay[1..], needle, i - 1);
        }
      }
    }
  }

  /** Whatever is appended to a string can be found in the result. */
  lemma ContainsAppended(a: string, b: string)
    ensures Contains(a + b, b)
  {
    assert (a + b)[|a|..|a| + |b|] == b;
    assert OccursAt(a + b, b, |a|);
    ContainsIffOccurs(a + b, b);
  }

  // ---------------------------------------------------------------------------
  // `String(n)` for an integer `n`
  // ---------------------------------------------------------------------------

  predicate IsDigit(c: char)
  {
    '0' <= c <= '9'
  }

  predicate AllDigits(s: string)
  {
    forall i :: 0 <= i < |s| ==> IsDigit(s[i])
  }

  function DigitChar(d: int): (c: char)
    requires 0 <= d < 10
    ensures IsDigit(c)
  {
    ('0' as int + d) as char
  }

  function DigitValue(c: char): (d: int)
    requires IsDigit(c)
    ensures 0 <= d < 10
  {
    c as int - '0' as int
  }

  /** The decimal digits of `n`, most significant first, without leading zeros. */
  function NatToString(n: nat): (r: string)
    ensures r != [] && AllDigits(r)
    ensures |r| > 1 ==> r[0] != '0'
  {
    if n < 10 then [DigitChar(n)] else NatToString(n / 10) + [DigitChar(n % 10)]
  }

  /** `String(n)` for an integer-valued number: a minus sign, then the digits of its magnitude. */
  function IntToString(n: int): string
  {
    if n < 0 then "-" + NatToString(-n) else NatToString(n)
  }

  /** The number a string of decimal digits denotes. */
  function ParseDigits(s: string): nat
    requires AllDigits(s)
  {
    if s == [] then 0 else 10 * ParseDigits(s[..|s| - 1]) + DigitValue(s[|s| - 1])
  }

  function ParseInt(s: string): int
    requires AllDigits(s) || (s != [] && s[0] == '-' && AllDigits(s[1..]))
  {
    if s != [] && s[0] == '-' then -(ParseDigits(s[1..]) as int) else ParseDigits(s)
  }

  lemma {:induction false} ParseNatToString(n: nat)
    ensures ParseDigits(NatToString(n)) == n
  {
    if n >= 10 {
      var s := NatToString(n);
      assert s[..|s| - 1] == NatToString(n / 10);
      ParseNatToString(n / 10);
    }
  }

  /** `String` on integers is injective: parsing its output gives the number back. */
  lemma ParseIntToString(n: int)
    ensures var s := IntToString(n);
      (AllDigits(s) || (s != [] && s[0] == '-' && AllDigits(s[1..]))) && ParseInt(s) == n
  {
    if n < 0 {
      assert IntToString(n)[1..] == NatToString(-n);
      ParseNatToString(-n);
    } else {
      ParseNatToString(n);
    }
  }

  // ---------------------------------------------------------------------------
  // `isNaN(Number(s))`: the StringNumericLiteral grammar of ECMAScript
  // ---------------------------------------------------------------------------

  predicate IsHexDigit(c: char)
  {
    IsDigit(c) || 'a' <= c <= 'f' || 'A' <= c <= 'F'
  }

  /** A prefix 0x, 0o or 0b (either case) followed by at least one digit of that base. */
  predicate IsNonDecimalInteger(s: string)
  {
    |s| >= 3 && s[0] == '0' &&
    ((s[1] in "xX" && forall i :: 2 <= i < |s| ==> IsHexDigit(s[i])) ||
     (s[1] in "oO" && forall i :: 2 <= i < |s| ==> '0' <= s[i] <= '7') ||
     (s[1] in "bB" && forall i :: 2 <= i < |s| ==> s[i] in "01"))
  }

  /** The first index of `c` or `d` in `s`, or `|s|` when neither occurs. */
  function IndexOfEither(s: string, c: char, d: char): (k: nat)
    ensures k <= |s|
    ensures k < |s| ==> s[k] == c || s[k] == d
    ensures forall i :: 0 <= i < k ==> s[i] != c && s[i] != d
  {
    if s == [] || s[0] == c || s[0] == d then 0 else 1 + IndexOfEither(s[1..], c, d)
  }

  /** Digits, possibly followed by a point and more digits, or a point and digits: at least one digit in all. */
  predicate IsMantissa(m: string)
  {
    var p := IndexOfEither(m, '.', '.');
    var whole := m[..p];
    var fraction := if p < |m| then m[p + 1..] else [];
    AllDigits(whole) && AllDigits(fraction) && |whole| + |fraction| > 0
  }

  predicate IsSignedInteger(s: string)
  {
    (s != [] && AllDigits(s)) || (|s| > 1 && s[0] in "+-" && AllDigits(s[1..]))
  }

  /** `Infinity`, or a mantissa with an optional exponent `e`/`E` and a signed integer. */
  predicate IsUnsignedDecimal(s: string)
  {
    s == "Infinity" ||
    var k := IndexOfEither(s, 'e', 'E');
    IsMantissa(s[..k]) && (k == |s| || IsSignedInteger(s[k + 1..]))
  }

  predicate IsStrDecimal(s: string)
  {
    IsUnsignedDecimal(s) || (s != [] && s[0] in "+-" && IsUnsignedDecimal(s[1..]))
  }

  /**
   * `Number(s)` is not NaN: once surrounding whitespace is dropped, `s` is empty
   * (which converts to 0) or a decimal or non-decimal numeric literal.
   */
  predicate ConvertsToNumber(s: string)
  {
    var t := Trim(s);
    t == [] || IsStrDecimal(t) || IsNonDecimalInteger(t)
  }

  /** Every `String(n)` of an integer converts back to a number. */
  lemma IntToStringConverts(n: int)
    ensures ConvertsToNumber(IntToString(n))
  {
    var digits := NatToString(if n < 0 then -n else n);
    assert digits[0] != 'I';
    assert IndexOfEither(digits, 'e', 'E') == |digits|;
    assert IndexOfEither(digits, '.', '.') == |digits|;
    assert digits[..|digits|] == digits;
    assert IsUnsignedDecimal(digits);
    var s := IntToString(n);
    if n < 0 {
      assert s == "-" + digits && s[1..] == digits;
    }
    assert forall i :: 0 <= i < |s| ==> !IsJsWhitespace(s[i]);
    TrimNoWhitespace(s);
  }

  /** Text without whitespace that starts with a lower-case letter is not a number: `Number` gives NaN. */
  lemma LetterFirstIsNaN(s: string)
    requires s != [] && 'a' <= s[0] <= 'z'
    requires forall i :: 0 <= i < |s| ==> !IsJsWhitespace(s[i])
    ensures !ConvertsToNumber(s)
  {
    TrimNoWhitespace(s);
    assert s != "Infinity" by { assert "Infinity"[0] == 'I'; }
    var k := IndexOfEither(s, 'e', 'E');
    if k > 0 {
      var m := s[..k];
      assert m[0] == s[0];
      var p := IndexOfEither(m, '.', '.');
      if p > 0 {
        assert m[..p][0] == s[0];
      }
    }
  }
}
