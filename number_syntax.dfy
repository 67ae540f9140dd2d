/**
 * The text grammars of Python's `float(str)` and `int(str)` (base 10), restricted to
 * ASCII digits. `float` accepts an optional sign, then `inf`, `infinity` or `nan` in
 * any letter case, or a decimal number with an optional exponent; digits may be
 * grouped by single underscores; surrounding whitespace is ignored.
 */
module NumberSyntax {
  import opened Wrappers
  import opened Strings

  predicate IsDigit(c: char)
  {
    '0' <= c <= '9'
  }

  /** Position `i` holds a digit, or an underscore followed by a digit. */
  predicate GroupedDigitAt(s: string, i: int)
    requires 0 <= i < |s|
  {
    IsDigit(s[i]) || (s[i] == '_' && i + 1 < |s| && IsDigit(s[i + 1]))
  }

  /** `digit (["_"] digit)*`: digits, each underscore standing between two digits. */
  predicate IsDigitPart(s: string)
  {
    && |s| > 0
    && IsDigit(s[0])
    && forall i :: 0 <= i < |s| ==> GroupedDigitAt(s, i)
  }

  /** Index of the first character of `s` that belongs to `cs`, if any. */
  function FirstIndex(s: string, cs: set<char>): (r: Option<nat>)
    ensures r.Some? ==> r.value < |s| && s[r.value] in cs && forall j :: 0 <= j < r.value ==> s[j] !in cs
    ensures r.None? ==> forall j :: 0 <= j < |s| ==> s[j] !in cs
  {
    if s == [] then None
    else if s[0] in cs then Some(0)
    else match FirstIndex(s[1..], cs)
      case None => None
      case Some(k) => Some(k + 1)
  }

  /** `[digitpart] "." digitpart | digitpart ["."]`. */
  predicate IsPointNumber(s: string)
  {
    match FirstIndex(s, {'.'})
    case None => IsDigitPart(s)
    case Some(p) =>
      var whole, fraction := s[..p], s[p + 1..];
      ((whole == "" || IsDigitPart(whole)) && IsDigitPart(fraction))
      || (IsDigitPart(whole) && fraction == "")
  }

  predicate IsSign(c: char)
  {
    c == '+' || c == '-'
  }

  /** `("e" | "E") [sign] digitpart`, without its leading letter. */
  predicate IsExponentTail(s: string)
  {
    IsDigitPart(s) || (|s| > 0 && IsSign(s[0]) && IsDigitPart(s[1..]))
  }

  /** `number [exponent]`. */
  predicate IsFloatNumber(s: string)
  {
    match FirstIndex(s, {'e', 'E'})
    case None => IsPointNumber(s)
    case Some(e) => IsPointNumber(s[..e]) && IsExponentTail(s[e + 1..])
  }

  /** The text after an optional sign: a decimal number, an infinity or a NaN. */
  predicate IsUnsignedFloat(s: string)
  {
    IsFloatNumber(s) || Lower(s) == "inf" || Lower(s) == "infinity" || Lower(s) == "nan"
  }

  /** `float(s)` succeeds. */
  predicate IsFloatText(s: string)
  {
    var t := Strip(s);
    IsUnsignedFloat(t) || (|t| > 0 && IsSign(t[0]) && IsUnsignedFloat(t[1..]))
  }

  /** The value of a digit part, underscores ignored. */
  function DigitsValue(s: string): nat
  {
    if s == [] then 0
    else
      var last := s[|s| - 1];
      if IsDigit(last) then DigitsValue(s[..|s| - 1]) * 10 + (last as int - '0' as int)
      else DigitsValue(s[..|s| - 1])
  }

  /** `[sign] digitpart`: the text `int()` accepts once stripped. */
  predicate IsIntText(t: string)
  {
    IsDigitPart(t) || (|t| > 0 && IsSign(t[0]) && IsDigitPart(t[1..]))
  }

  /**
   * `int(s)` for a string `s`, or the `ValueError` it raises: it succeeds exactly on
   * stripped text of an optional sign and a digit part, with the digits' value, negated
   * after a minus sign.
   */
  function IntOfText(s: string): (r: Result<int>)
    ensures r.Ok? <==> IsIntText(Strip(s))
    ensures IsDigitPart(Strip(s)) ==> r == Ok(DigitsValue(Strip(s)))
    ensures |Strip(s)| > 0 && IsSign(Strip(s)[0]) && IsDigitPart(Strip(s)[1..]) ==>
      r == Ok(if Strip(s)[0] == '-' then -(DigitsValue(Strip(s)[1..]) as int) else DigitsValue(Strip(s)[1..]))
  {
    var t := Strip(s);
    if IsDigitPart(t) then Ok(DigitsValue(t))
    else if |t| > 0 && IsSign(t[0]) && IsDigitPart(t[1..]) then
      Ok(if t[0] == '-' then -(DigitsValue(t[1..]) as int) else DigitsValue(t[1..]))
    else Err("invalid literal for int() with base 10")
  }

  /** Text `int()` accepts is text `float()` accepts too. */
  lemma IntTextIsFloatText(s: string)
    ensures IntOfText(s).Ok? ==> IsFloatText(s)
  {
    var t := Strip(s);
    if IsDigitPart(t) {
      DigitPartIsFloat(t);
    } else if |t| > 0 && IsSign(t[0]) && IsDigitPart(t[1..]) {
      DigitPartIsFloat(t[1..]);
    }
  }

  /** The decimal digits of `n`, most significant first, as `str(n)` writes them. */
  function DecimalText(n: nat): (r: string)
    ensures |r| > 0 && forall i :: 0 <= i < |r| ==> IsDigit(r[i])
  {
    var d := ['0' + (n % 10) as char];
    if n < 10 then d else DecimalText(n / 10) + d
  }

  /** Decimal text is a digit part whose value is the number written. */
  lemma {:induction false} DecimalTextValue(n: nat)
    ensures IsDigitPart(DecimalText(n))
    ensures DigitsValue(DecimalText(n)) == n
  {
    var t := DecimalText(n);
    assert forall i :: 0 <= i < |t| ==> GroupedDigitAt(t, i);
    if n >= 10 {
      DecimalTextValue(n / 10);
      assert t[..|t| - 1] == DecimalText(n / 10);
    }
  }

  /** A digit part, with nothing around it, reads as its value. */
  lemma IntOfDigitPart(t: string)
    requires IsDigitPart(t)
    ensures IntOfText(t) == Ok(DigitsValue(t))
  {
    assert Strip(t) == t by {
      assert GroupedDigitAt(t, |t| - 1);
      StripTrimmed(t);
    }
  }

  /** Text made of a minus sign and a digit part `t` reads as the negated value of `t`. */
  lemma IntOfMinusText(text: string, t: string)
    requires |text| > 1 && text[0] == '-' && text[1..] == t && IsDigitPart(t)
    ensures IntOfText(text) == Ok(-(DigitsValue(t) as int))
  {
    assert Strip(text) == text by {
      assert GroupedDigitAt(t, |t| - 1);
      StripTrimmed(text);
    }
  }

  /** A minus sign before a digit part reads as the negated value. */
  lemma IntOfNegatedDigitPart(t: string)
    requires IsDigitPart(t)
    ensures IntOfText("-" + t) == Ok(-(DigitsValue(t) as int))
  {
    IntOfMinusText("-" + t, t);
  }

  /** `int(str(n))` gives `n` back. */
  lemma IntOfDecimalTextNat(n: nat)
    ensures IntOfText(DecimalText(n)) == Ok(n)
  {
    DecimalTextValue(n);
    IntOfDigitPart(DecimalText(n));
  }

  /** `int("-" + str(n))` gives `-n` back. */
  lemma IntOfNegatedDecimalText(n: nat)
    ensures IntOfText("-" + DecimalText(n)) == Ok(-(n as int))
  {
    DecimalTextValue(n);
    IntOfNegatedDigitPart(DecimalText(n));
  }

  /** `int(str(m))` gives `m` back, for every integer `m`. */
  lemma IntOfDecimalText(m: int)
    ensures IntOfText(if m < 0 then "-" + DecimalText(-m) else DecimalText(m)) == Ok(m)
  {
    if m < 0 {
      IntOfNegatedDecimalText(-m);
    } else {
      IntOfDecimalTextNat(m);
    }
  }

  /** Every digit part is also valid `float` text. */
  lemma DigitPartIsFloat(s: string)
    requires IsDigitPart(s)
    ensures IsFloatNumber(s)
  {
    assert FirstIndex(s, {'.'}).None? by {
      forall j | 0 <= j < |s| ensures s[j] != '.' {
        assert GroupedDigitAt(s, j);
      }
    }
    assert FirstIndex(s, {'e', 'E'}).None? by {
      forall j | 0 <= j < |s| ensures s[j] != 'e' && s[j] != 'E' {
        assert GroupedDigitAt(s, j);
      }
    }
  }
}
