/**
  The few JavaScript string primitives the weather engine relies on:
  relational comparison of strings, `String.prototype.slice`, and the
  `Number(...)` conversion of the (at most two characters long) hour field.
  A Dafny `char` is a Unicode scalar value, while JavaScript strings are
  sequences of UTF-16 code units; the two agree on every character of the
  Basic Multilingual Plane, which covers the ISO timestamps handled here.
 */
module JsText {
  import opened Wrappers

  // ---------------------------------------------------------------------------
  // Relational comparison `a < b` on strings
  // ---------------------------------------------------------------------------

  /** JavaScript's `a < b` on strings: lexicographic order on code units, in
      which a proper prefix is smaller. (Dafny's own `<` on sequences means
      "proper prefix" only.) */
  predicate Lt(a: string, b: string)
    decreases |a|
  {
    if |b| == 0 then false
    else if |a| == 0 then true
    else if a[0] != b[0] then a[0] < b[0]
    else Lt(a[1..], b[1..])
  }

  /** `k` is the first position where `a` and `b` part, and `a` is smaller
      there (or `a` ends there while `b` goes on). */
  ghost predicate FirstDifferenceBelow(a: string, b: string, k: nat)
  {
    && k <= |a| && k < |b|
    && a[..k] == b[..k]
    && (k == |a| || a[k] < b[k])
  }

  lemma {:induction false} LtHasFirstDifference(a: string, b: string)
    requires Lt(a, b)
    ensures exists k: nat :: FirstDifferenceBelow(a, b, k)
    decreases |a|
  {
    if |a| == 0 || a[0] != b[0] {
      assert FirstDifferenceBelow(a, b, 0);
    } else {
      LtHasFirstDifference(a[1..], b[1..]);
      var k: nat :| FirstDifferenceBelow(a[1..], b[1..], k);
      assert a[..k + 1] == [a[0]] + a[1..][..k];
      assert b[..k + 1] == [b[0]] + b[1..][..k];
      assert FirstDifferenceBelow(a, b, k + 1);
    }
  }

  lemma {:induction false} FirstDifferenceGivesLt(a: string, b: string, k: nat)
    requires FirstDifferenceBelow(a, b, k)
    ensures Lt(a, b)
    decreases k
  {
    if k > 0 {
      assert a[0] == a[..k][0] == b[..k][0] == b[0];
      assert a[1..][..k - 1] == a[..k][1..];
      assert b[1..][..k - 1] == b[..k][1..];
      if k < |a| {
        assert a[1..][k - 1] == a[k];
      }
      FirstDifferenceGivesLt(a[1..], b[1..], k - 1);
    }
  }

  /** `Lt` is the textbook lexicographic order: `a < b` exactly when, at the
      first position where they part, `a` is smaller or has ended. */
  lemma LtIsLexicographic(a: string, b: string)
    ensures Lt(a, b) <==> exists k: nat :: FirstDifferenceBelow(a, b, k)
  {
    if Lt(a, b) {
      LtHasFirstDifference(a, b);
    }
    if exists k: nat :: FirstDifferenceBelow(a, b, k) {
      var k: nat :| FirstDifferenceBelow(a, b, k);
      FirstDifferenceGivesLt(a, b, k);
    }
  }

  /** A proper prefix (Dafny's `<`) is smaller in JavaScript's order too. */
  lemma ProperPrefixIsLt(a: string, b: string)
    requires a < b
    ensures Lt(a, b)
  {
    assert FirstDifferenceBelow(a, b, |a|);
    FirstDifferenceGivesLt(a, b, |a|);
  }

  lemma {:induction false} LtIrreflexive(a: string)
    ensures !Lt(a, a)
    decreases |a|
  {
    if |a| > 0 {
      LtIrreflexive(a[1..]);
    }
  }

  lemma {:induction false} LtTransitive(a: string, b: string, c: string)
    requires Lt(a, b) && Lt(b, c)
    ensures Lt(a, c)
    decreases |a|
  {
    if |a| > 0 && a[0] == b[0] && b[0] == c[0] {
      LtTransitive(a[1..], b[1..], c[1..]);
    }
  }

  lemma {:induction false} LtConnected(a: string, b: string)
    requires a != b
    ensures Lt(a, b) || Lt(b, a)
    decreases |a|
  {
    if |a| > 0 && |b| > 0 && a[0] == b[0] {
      assert a == [a[0]] + a[1..] && b == [b[0]] + b[1..];
      LtConnected(a[1..], b[1..]);
    }
  }

  lemma LtAsymmetric(a: string, b: string)
    requires Lt(a, b)
    ensures !Lt(b, a)
  {
    if Lt(b, a) {
      LtTransitive(a, b, a);
      LtIrreflexive(a);
    }
  }

  // ---------------------------------------------------------------------------
  // String.prototype.slice
  // ---------------------------------------------------------------------------

  /** `s.slice(start, end)` for non-negative bounds: both bounds are clamped
      to the length, and an empty range gives the empty string. */
  function Slice(s: string, start: nat, end: nat): (r: string)
    ensures |r| <= |s|
    ensures start <= end <= |s| ==> r == s[start..end]
    ensures start < |s| < end ==> r == s[start..]
    ensures end <= start || |s| <= start ==> r == ""
  {
    var from := Min(start, |s|);
    var to := Min(end, |s|);
    if from >= to then "" else s[from..to]
  }

  // ---------------------------------------------------------------------------
  // Number(text) for texts of at most two characters
  // ---------------------------------------------------------------------------

  /** The characters `Number` strips from both ends: ECMAScript's WhiteSpace
      (tab, vertical tab, form feed, ZWNBSP and every space separator) and
      LineTerminator code points. */
  predicate IsJsWhiteSpace(c: char)
  {
    var u := c as int;
    || u == 0x09 || u == 0x0B || u == 0x0C || u == 0xFEFF
    || u == 0x20 || u == 0xA0 || u == 0x1680 || (0x2000 <= u <= 0x200A)
    || u == 0x202F || u == 0x205F || u == 0x3000
    || u == 0x0A || u == 0x0D || u == 0x2028 || u == 0x2029
  }

  /** The number of white-space characters `s` starts with. */
  function LeadingBlanks(s: string): (n: nat)
    ensures n <= |s|
    ensures forall k :: 0 <= k < n ==> IsJsWhiteSpace(s[k])
    ensures n < |s| ==> !IsJsWhiteSpace(s[n])
    decreases |s|
  {
    if |s| > 0 && IsJsWhiteSpace(s[0]) then
      var n := LeadingBlanks(s[1..]);
      assert forall k :: 0 < k <= n ==> s[k] == s[1..][k - 1];
      1 + n
    else 0
  }

  /** The number of white-space characters `s` ends with. */
  function TrailingBlanks(s: string): (n: nat)
    ensures n <= |s|
    ensures forall k :: |s| - n <= k < |s| ==> IsJsWhiteSpace(s[k])
    ensures n < |s| ==> !IsJsWhiteSpace(s[|s| - n - 1])
    decreases |s|
  {
    if |s| > 0 && IsJsWhiteSpace(s[|s| - 1]) then
      var n := TrailingBlanks(s[..|s| - 1]);
      assert forall k :: |s| - 1 - n <= k < |s| - 1 ==> s[k] == s[..|s| - 1][k];
      1 + n
    else 0
  }

  /** `s` without its leading white space. */
  function TrimStart(s: string): (r: string)
    ensures |r| <= |s|
    ensures r == s[|s| - |r|..]
    ensures |r| > 0 ==> !IsJsWhiteSpace(r[0])
    ensures forall i :: 0 <= i < |s| - |r| ==> IsJsWhiteSpace(s[i])
  {
    s[LeadingBlanks(s)..]
  }

  /** `s` without its trailing white space. */
  function TrimEnd(s: string): (r: string)
    ensures |r| <= |s|
    ensures r == s[..|r|]
    ensures |r| > 0 ==> !IsJsWhiteSpace(r[|r| - 1])
    ensures forall i :: |r| <= i < |s| ==> IsJsWhiteSpace(s[i])
  {
    s[..|s| - TrailingBlanks(s)]
  }

  /** `String.prototype.trim`, the first step of `Number(text)`. */
  function Trim(s: string): (r: string)
    ensures |r| <= |s|
  {
    TrimEnd(TrimStart(s))
  }

  /** `Trim(s)` is the piece of `s` that is left once the white space at both
      ends is gone: it neither starts nor ends with white space, and only
      white space lies around it. */
  lemma TrimSpec(s: string)
    ensures var r := Trim(s);
            var i := |s| - |TrimStart(s)|;
            && i + |r| <= |s| && r == s[i..i + |r|]
            && (forall k :: 0 <= k < i ==> IsJsWhiteSpace(s[k]))
            && (forall k :: i + |r| <= k < |s| ==> IsJsWhiteSpace(s[k]))
            && (|r| > 0 ==> !IsJsWhiteSpace(r[0]) && !IsJsWhiteSpace(r[|r| - 1]))
  {
    var t := TrimStart(s);
    var r := TrimEnd(t);
    assert |t| <= |s| && t == s[|s| - |t|..];
    assert forall k :: 0 <= k < |s| - |t| ==> IsJsWhiteSpace(s[k]);
    assert |t| > 0 ==> !IsJsWhiteSpace(t[0]);
    assert |r| <= |t| && r == t[..|r|];
    assert forall k :: |r| <= k < |t| ==> IsJsWhiteSpace(t[k]);
    assert |r| > 0 ==> !IsJsWhiteSpace(r[|r| - 1]);
    TrimPieces(s, t, r);
    assert Trim(s) == r;
  }

  /** The two halves of trimming put together: `t` is `s` without its
      leading white space, and `r` is `t` without its trailing white space. */
  lemma TrimPieces(s: string, t: string, r: string)
    requires |t| <= |s| && t == s[|s| - |t|..]
    requires forall k :: 0 <= k < |s| - |t| ==> IsJsWhiteSpace(s[k])
    requires |t| > 0 ==> !IsJsWhiteSpace(t[0])
    requires |r| <= |t| && r == t[..|r|]
    requires forall k :: |r| <= k < |t| ==> IsJsWhiteSpace(t[k])
    requires |r| > 0 ==> !IsJsWhiteSpace(r[|r| - 1])
    ensures var i := |s| - |t|;
            && i + |r| <= |s| && r == s[i..i + |r|]
            && (forall k :: 0 <= k < i ==> IsJsWhiteSpace(s[k]))
            && (forall k :: i + |r| <= k < |s| ==> IsJsWhiteSpace(s[k]))
            && (|r| > 0 ==> !IsJsWhiteSpace(r[0]) && !IsJsWhiteSpace(r[|r| - 1]))
  {
    var i := |s| - |t|;
    assert r == s[i..i + |r|];
    forall k | i + |r| <= k < |s|
      ensures IsJsWhiteSpace(s[k])
    {
      assert s[k] == t[k - i];
    }
    if |r| > 0 {
      assert r[0] == t[0];
    }
  }

  predicate IsDigit(c: char)
  {
    '0' <= c <= '9'
  }

  function DigitValue(c: char): (r: nat)
    requires IsDigit(c)
    ensures r <= 9
  {
    c as int - '0' as int
  }

  /** `Number(text)` for a text of at most two characters; `None` is NaN.
      The text is trimmed first. */
  function JsNumber(s: string): (r: Option<real>)
    requires |s| <= 2
    ensures r.Some? ==> -9.0 <= r.value <= 99.0
  {
    NumberOfTrimmed(Trim(s))
  }

  /** The trimmed text read as a number: the empty text is 0, and the only
      numeric literals of length one or two are `D`, `DD`, `+D`, `-D`, `.D`
      and `D.` (hexadecimal, binary, octal and exponent forms need at least
      three characters). */
  function NumberOfTrimmed(u: string): (r: Option<real>)
    requires |u| <= 2
    ensures r.Some? ==> -9.0 <= r.value <= 99.0
  {
    if |u| == 0 then Some(0.0)
    else if |u| == 1 then
      if IsDigit(u[0]) then Some(DigitValue(u[0]) as real) else None
    else if IsDigit(u[0]) && IsDigit(u[1]) then Some((10 * DigitValue(u[0]) + DigitValue(u[1])) as real)
    else if u[0] == '+' && IsDigit(u[1]) then Some(DigitValue(u[1]) as real)
    else if u[0] == '-' && IsDigit(u[1]) then Some(-(DigitValue(u[1]) as real))
    else if u[0] == '.' && IsDigit(u[1]) then Some(DigitValue(u[1]) as real / 10.0)
    else if IsDigit(u[0]) && u[1] == '.' then Some(DigitValue(u[0]) as real)
    else None
  }

  /** Trimming leaves a text of two non-blank characters alone, and a text
      that is still two characters long after trimming was not changed. */
  lemma TrimTwo(s: string)
    requires |s| == 2
    ensures !IsJsWhiteSpace(s[0]) && !IsJsWhiteSpace(s[1]) ==> Trim(s) == s
    ensures |Trim(s)| == 2 ==> Trim(s) == s
  {
    if !IsJsWhiteSpace(s[0]) && !IsJsWhiteSpace(s[1]) {
      assert TrimStart(s) == s;
      assert TrimEnd(s) == s;
    }
    if |Trim(s)| == 2 {
      assert TrimStart(s) == s;
    }
  }

  /** Two decimal digits read as the two-digit number they spell. */
  lemma JsNumberOfTwoDigits(s: string)
    requires |s| == 2 && IsDigit(s[0]) && IsDigit(s[1])
    ensures JsNumber(s) == Some((10 * DigitValue(s[0]) + DigitValue(s[1])) as real)
  {
    assert !IsJsWhiteSpace(s[0]) && !IsJsWhiteSpace(s[1]);
    TrimTwo(s);
    assert Trim(s) == s;
  }

  /** A dot followed by a digit reads as that digit divided by ten. */
  lemma JsNumberOfDotDigit(s: string)
    requires |s| == 2 && s[0] == '.' && IsDigit(s[1])
    ensures JsNumber(s) == Some(DigitValue(s[1]) as real / 10.0)
  {
    assert !IsJsWhiteSpace(s[0]) && !IsJsWhiteSpace(s[1]);
    TrimTwo(s);
    assert Trim(s) == s;
  }

  /** A text made only of white space (including the empty text) is 0. */
  lemma JsNumberOfBlank(s: string)
    requires |s| <= 2
    requires forall i :: 0 <= i < |s| ==> IsJsWhiteSpace(s[i])
    ensures JsNumber(s) == Some(0.0)
  {
    assert TrimStart(s) == "";
  }

  /** Among trimmed texts, only a dot followed by a non-zero digit reads as
      a number that is not whole. */
  lemma TrimmedWholeUnlessDotDigit(u: string)
    requires |u| <= 2
    ensures NumberOfTrimmed(u).Some? && NumberOfTrimmed(u).value != NumberOfTrimmed(u).value.Floor as real
            <==> |u| == 2 && u[0] == '.' && IsDigit(u[1]) && u[1] != '0'
  {
    if |u| == 2 && u[0] == '.' && IsDigit(u[1]) {
      var x := DigitValue(u[1]) as real / 10.0;
      assert NumberOfTrimmed(u) == Some(x);
      if u[1] != '0' {
        assert 0.0 < x < 1.0;
        assert x.Floor == 0;
      }
    }
  }

  /** Of all the texts `JsNumber` reads, only a dot followed by a non-zero
      digit gives a number that is not whole. */
  lemma JsNumberWholeUnlessDotDigit(s: string)
    requires |s| <= 2
    ensures JsNumber(s).Some? && JsNumber(s).value != JsNumber(s).value.Floor as real
            <==> |s| == 2 && s[0] == '.' && IsDigit(s[1]) && s[1] != '0'
  {
    var u := Trim(s);
    TrimmedWholeUnlessDotDigit(u);
    if |s| == 2 {
      TrimTwo(s);
      if |u| == 2 {
        assert u == s;
      } else {
        // A dot and a digit are not white space, so trimming would keep both.
        assert !(s[0] == '.' && IsDigit(s[1]));
      }
    } else {
      assert |u| < 2;
    }
  }

  // ---------------------------------------------------------------------------
  // The decimal literals of ECMAScript's StringNumericLiteral grammar
  // ---------------------------------------------------------------------------

  predicate AllDigits(s: string)
  {
    forall i :: 0 <= i < |s| ==> IsDigit(s[i])
  }

  /** The value of a run of decimal digits (0 for the empty run). */
  function DigitsValue(s: string): (r: nat)
    requires AllDigits(s)
    decreases |s|
  {
    if |s| == 0 then 0 else 10 * DigitsValue(s[..|s| - 1]) + DigitValue(s[|s| - 1])
  }

  function Pow10(n: nat): (r: nat)
    ensures r >= 1
  {
    if n == 0 then 1 else 10 * Pow10(n - 1)
  }

  /** The position of the first `.` in `s`, or `|s|` when there is none. */
  function DotIndex(s: string): (r: nat)
    ensures r <= |s|
    ensures r < |s| ==> s[r] == '.'
    ensures forall i :: 0 <= i < r ==> s[i] != '.'
  {
    if |s| == 0 || s[0] == '.' then 0 else 1 + DotIndex(s[1..])
  }

  /** StrUnsignedDecimalLiteral without an exponent part (section 7.1.4.1 of
      ECMA-262): `DecimalDigits`, `DecimalDigits .`, `DecimalDigits .
      DecimalDigits` or `. DecimalDigits`; `None` when `s` is none of them. */
  function UnsignedDecimal(s: string): Option<real>
  {
    var k := DotIndex(s);
    var whole := s[..k];
    var fraction := if k < |s| then s[k + 1..] else "";
    if AllDigits(whole) && AllDigits(fraction) && |whole| + |fraction| > 0
    then Some(DigitsValue(whole) as real + DigitsValue(fraction) as real / Pow10(|fraction|) as real)
    else None
  }

  /** StrDecimalLiteral without an exponent part: an optional sign, then an
      unsigned decimal literal. */
  function DecimalLiteral(s: string): Option<real>
  {
    if |s| > 0 && s[0] == '+' then UnsignedDecimal(s[1..])
    else if |s| > 0 && s[0] == '-' then
      match UnsignedDecimal(s[1..])
      case Some(x) => Some(-x)
      case None => None
    else UnsignedDecimal(s)
  }

  lemma OneCharDecimal(u: string)
    requires |u| == 1
    ensures NumberOfTrimmed(u) == DecimalLiteral(u)
  {
    if u[0] == '.' {
      assert DotIndex(u) == 0;
    } else {
      assert DotIndex(u) == 1;
      assert u[..1] == u;
      if IsDigit(u[0]) {
        assert DigitsValue(u) == DigitValue(u[0]) by {
          assert u[..0] == "";
        }
      }
    }
  }

  /** Two characters without a dot: a signed digit or two digits. */
  lemma TwoCharsNoDot(u: string)
    requires |u| == 2 && u[0] != '.' && u[1] != '.'
    ensures NumberOfTrimmed(u) == DecimalLiteral(u)
  {
    assert DotIndex(u) == 2 by {
      assert DotIndex(u[1..]) == 1;
    }
    assert u[..2] == u;
    var tail := u[1..];
    OneCharDecimal(tail);
    if AllDigits(u) {
      assert u[..1] == [u[0]];
      assert DigitsValue([u[0]]) == DigitValue(u[0]) by {
        assert [u[0]][..0] == "";
      }
    }
  }

  /** Two characters with a dot: `.D`, `D.`, or no literal at all. */
  lemma TwoCharsWithDot(u: string)
    requires |u| == 2 && (u[0] == '.' || u[1] == '.')
    ensures NumberOfTrimmed(u) == DecimalLiteral(u)
  {
    if u[0] == '.' {
      LeadingDot(u);
    } else {
      TrailingDot(u);
    }
  }

  /** `.D` is a tenth of `D`; a dot followed by anything else is NaN. */
  lemma LeadingDot(u: string)
    requires |u| == 2 && u[0] == '.'
    ensures NumberOfTrimmed(u) == DecimalLiteral(u)
  {
    assert DotIndex(u) == 0;
    assert u[..0] == "" && u[1..] == [u[1]];
    if IsDigit(u[1]) {
      assert DigitsValue([u[1]]) == DigitValue(u[1]) by {
        assert [u[1]][..0] == "";
      }
      assert Pow10(1) == 10;
      assert DigitsValue(u[..0]) == 0;
      var x := DigitValue(u[1]) as real;
      assert UnsignedDecimal(u) == Some(0 as real + x / 10 as real);
      assert 0 as real + x / 10 as real == x / 10.0;
      assert NumberOfTrimmed(u) == Some(x / 10.0);
    }
    assert DecimalLiteral(u) == UnsignedDecimal(u);
  }

  /** `D.` is `D`; a sign followed by a dot, or any other character followed
      by a dot, is NaN. */
  lemma TrailingDot(u: string)
    requires |u| == 2 && u[0] != '.' && u[1] == '.'
    ensures NumberOfTrimmed(u) == DecimalLiteral(u)
  {
    assert DotIndex(u) == 1 by {
      assert DotIndex(u[1..]) == 0;
    }
    assert u[..1] == [u[0]] && u[2..] == "";
    if u[0] == '+' || u[0] == '-' {
      var tail := u[1..];
      assert DotIndex(tail) == 0;
      assert tail[..0] == "" && tail[1..] == "";
      assert UnsignedDecimal(tail) == None;
    } else if IsDigit(u[0]) {
      assert DigitsValue([u[0]]) == DigitValue(u[0]) by {
        assert [u[0]][..0] == "";
      }
    }
  }

  /** The case analysis of `NumberOfTrimmed` agrees with the grammar: every
      non-empty text of at most two characters reads as its decimal literal
      value, and is NaN exactly when it is not a decimal literal. */
  lemma NumberOfTrimmedIsDecimal(u: string)
    requires 0 < |u| <= 2
    ensures NumberOfTrimmed(u) == DecimalLiteral(u)
  {
    if |u| == 1 {
      OneCharDecimal(u);
    } else if u[0] == '.' || u[1] == '.' {
      TwoCharsWithDot(u);
    } else {
      TwoCharsNoDot(u);
    }
  }

  /** `Number(text)` of a text of at most two characters: 0 when the text is
      blank, otherwise the decimal literal value of the trimmed text, or NaN
      when the trimmed text is not a decimal literal. */
  lemma JsNumberIsDecimal(s: string)
    requires |s| <= 2
    ensures Trim(s) == "" ==> JsNumber(s) == Some(0.0)
    ensures Trim(s) != "" ==> JsNumber(s) == DecimalLiteral(Trim(s))
  {
    if Trim(s) != "" {
      NumberOfTrimmedIsDecimal(Trim(s));
    }
  }
}
