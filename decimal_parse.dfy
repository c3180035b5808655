/** The decimal reading `atof` gives a command-line token or a joint-file
    field: leading C white space, an optional sign, decimal digits with an
    optional fraction after a '.', and an optional exponent ('e' or 'E', an
    optional sign, digits); reading stops at the first character that does
    not fit, and a token with no numeric prefix reads as zero. */
module DecimalParse {

  predicate IsDigit(c: char)
  {
    '0' <= c <= '9'
  }

  predicate AllDigits(d: string)
  {
    forall k :: 0 <= k < |d| ==> IsDigit(d[k])
  }

  function DigitValue(c: char): int
  {
    c as int - '0' as int
  }

  function DigitChar(v: nat): (c: char)
    requires v < 10
    ensures IsDigit(c) && DigitValue(c) == v
  {
    ('0' as int + v) as char
  }

  /** isspace in the C locale: ' ', '\t', '\n', '\v', '\f', '\r'. */
  predicate IsCSpace(c: char)
  {
    c == ' ' || 9 <= c as int <= 13
  }

  /** The text after the leading white space. */
  function SkipSpace(s: string): string
  {
    if s != [] && IsCSpace(s[0]) then SkipSpace(s[1..]) else s
  }

  /** The run of digits that starts `s`. */
  function DigitPrefix(s: string): string
  {
    if s != [] && IsDigit(s[0]) then [s[0]] + DigitPrefix(s[1..]) else []
  }

  /** The text after the run of digits that starts `s`. */
  function AfterDigits(s: string): string
  {
    if s != [] && IsDigit(s[0]) then AfterDigits(s[1..]) else s
  }

  /** Value of a digit string read most significant digit first. */
  function WholeValue(d: string): int
  {
    if d == [] then 0 else 10 * WholeValue(d[..|d| - 1]) + DigitValue(d[|d| - 1])
  }

  /** Value of the digits after the decimal point. */
  function FractionValue(d: string): real
  {
    if d == [] then 0.0 else (DigitValue(d[0]) as real + FractionValue(d[1..])) / 10.0
  }

  /** The digits, then optionally '.' and more digits. */
  function MantissaValue(s: string): real
  {
    var whole := WholeValue(DigitPrefix(s)) as real;
    var rest := AfterDigits(s);
    if rest != [] && rest[0] == '.' then whole + FractionValue(DigitPrefix(rest[1..])) else whole
  }

  /** The text after the digits and the optional fraction. */
  function AfterMantissa(s: string): string
  {
    var rest := AfterDigits(s);
    if rest != [] && rest[0] == '.' then AfterDigits(rest[1..]) else rest
  }

  /** The exponent that `r` starts with: 'e' or 'E', an optional sign and at
      least one digit; 0 when `r` does not start with one, in which case
      `strtod` leaves the 'e' unread. */
  function Exponent(r: string): int
  {
    if r == [] || !(r[0] == 'e' || r[0] == 'E') then 0
    else
      var t := r[1..];
      var d := if t != [] && (t[0] == '-' || t[0] == '+') then t[1..] else t;
      if d == [] || !IsDigit(d[0]) then 0
      else
        var v := WholeValue(DigitPrefix(d));
        if t[0] == '-' then -v else v
  }

  function Pow10(e: nat): (p: real)
    ensures p >= 1.0
  {
    if e == 0 then 1.0 else 10.0 * Pow10(e - 1)
  }

  /** `m` multiplied by ten `k` times. */
  function ShiftLeft(m: real, k: nat): real
  {
    if k == 0 then m else 10.0 * ShiftLeft(m, k - 1)
  }

  /** `m` divided by ten `k` times. */
  function ShiftRight(m: real, k: nat): real
  {
    if k == 0 then m else ShiftRight(m, k - 1) / 10.0
  }

  /** `m` times ten to the power `e`. */
  function Scientific(m: real, e: int): real
  {
    if e >= 0 then ShiftLeft(m, e) else ShiftRight(m, -e)
  }

  /** The shifts multiply and divide by a power of ten. */
  lemma {:induction false} ShiftsArePowers(m: real, k: nat)
    ensures ShiftLeft(m, k) == m * Pow10(k)
    ensures ShiftRight(m, k) == m / Pow10(k)
  {
    if k > 0 {
      ShiftsArePowers(m, k - 1);
      assert 10.0 * (m * Pow10(k - 1)) == m * (10.0 * Pow10(k - 1));
      assert m / Pow10(k - 1) / 10.0 == m / (10.0 * Pow10(k - 1));
    }
  }

  /** The unsigned part: the mantissa scaled by its exponent. */
  function UnsignedValue(s: string): real
  {
    Scientific(MantissaValue(s), Exponent(AfterMantissa(s)))
  }

  function Atof(s: string): real
  {
    var t := SkipSpace(s);
    var u := if t != [] && (t[0] == '-' || t[0] == '+') then t[1..] else t;
    if t != [] && t[0] == '-' then -UnsignedValue(u) else UnsignedValue(u)
  }

  /** A token splits into its maximal run of leading digits and the rest. */
  lemma {:induction false} DigitSplit(s: string)
    ensures s == DigitPrefix(s) + AfterDigits(s)
    ensures AllDigits(DigitPrefix(s))
    ensures AfterDigits(s) == [] || !IsDigit(AfterDigits(s)[0])
  {
    if s != [] && IsDigit(s[0]) {
      DigitSplit(s[1..]);
      assert s == [s[0]] + s[1..];
    }
  }

  /** When `w` is all digits and `r` does not start with one, the digit run
      of `w + r` is `w` and the rest is `r`. */
  lemma {:induction false} DigitSplitOf(w: string, r: string)
    requires AllDigits(w)
    requires r == [] || !IsDigit(r[0])
    ensures DigitPrefix(w + r) == w && AfterDigits(w + r) == r
  {
    if w != [] {
      assert (w + r)[0] == w[0] && (w + r)[1..] == w[1..] + r;
      DigitSplitOf(w[1..], r);
      assert w == [w[0]] + w[1..];
    } else {
      assert w + r == r;
    }
  }

  lemma {:induction false} WholeValueNonNegative(d: string)
    requires AllDigits(d)
    ensures WholeValue(d) >= 0
  {
    if d != [] {
      WholeValueNonNegative(d[..|d| - 1]);
    }
  }

  /** The digits after the point denote a value in [0, 1). */
  lemma {:induction false} FractionBounds(d: string)
    requires AllDigits(d)
    ensures 0.0 <= FractionValue(d) < 1.0
  {
    if d != [] {
      FractionBounds(d[1..]);
    }
  }

  /** The unsigned part never reads as negative. */
  lemma UnsignedNonNegative(s: string)
    ensures UnsignedValue(s) >= 0.0
  {
    DigitSplit(s);
    WholeValueNonNegative(DigitPrefix(s));
    var rest := AfterDigits(s);
    if rest != [] && rest[0] == '.' {
      DigitSplit(rest[1..]);
      FractionBounds(DigitPrefix(rest[1..]));
    }
    ScientificNonNegative(MantissaValue(s), Exponent(AfterMantissa(s)));
  }

  lemma ScientificNonNegative(m: real, e: int)
    requires m >= 0.0
    ensures Scientific(m, e) >= 0.0
  {
    var k: nat := if e >= 0 then e else -e;
    ShiftsNonNegative(m, k);
  }

  lemma {:induction false} ShiftsNonNegative(m: real, k: nat)
    requires m >= 0.0
    ensures ShiftLeft(m, k) >= 0.0 && ShiftRight(m, k) >= 0.0
  {
    if k > 0 {
      ShiftsNonNegative(m, k - 1);
    }
  }

  /** Decimal rendering of a natural number, used to state the round trip. */
  function Numeral(n: nat): (s: string)
    ensures s != [] && AllDigits(s)
  {
    if n < 10 then [DigitChar(n)] else Numeral(n / 10) + [DigitChar(n % 10)]
  }

  lemma {:induction false} WholeValueOfNumeral(n: nat)
    ensures WholeValue(Numeral(n)) == n
  {
    if n >= 10 {
      var s := Numeral(n);
      assert s[..|s| - 1] == Numeral(n / 10);
      WholeValueOfNumeral(n / 10);
    }
  }

  /** Reading back a rendered natural number gives the number. */
  lemma AtofOfNumeral(n: nat)
    ensures Atof(Numeral(n)) == n as real
  {
    var s := Numeral(n);
    DigitSplitOf(s, []);
    assert s + [] == s;
    WholeValueOfNumeral(n);
  }

  /** Digits, a point, digits and then text that is not a digit: the whole
      part plus the fraction is the mantissa, and the text is what follows
      it. */
  lemma MantissaOfDecimal(w: string, f: string, tail: string)
    requires AllDigits(w) && AllDigits(f)
    requires tail == [] || !IsDigit(tail[0])
    ensures MantissaValue(w + ("." + (f + tail))) == WholeValue(w) as real + FractionValue(f)
    ensures AfterMantissa(w + ("." + (f + tail))) == tail
  {
    var r := "." + (f + tail);
    DigitSplitOf(w, r);
    assert r[1..] == f + tail;
    DigitSplitOf(f, tail);
  }

  /** A token that starts with a digit is read by its unsigned part. */
  lemma AtofOfDigitStart(s: string)
    requires s != [] && IsDigit(s[0])
    ensures Atof(s) == UnsignedValue(s)
  {
  }

  /** A rendered number followed by '.' and further digits reads as the
      number plus the fraction those digits denote, whatever text follows
      them that neither continues the digits nor starts an exponent. */
  lemma AtofOfDecimal(n: nat, f: string, tail: string)
    requires AllDigits(f)
    requires tail == [] || !(IsDigit(tail[0]) || tail[0] in "eE")
    ensures Atof(Numeral(n) + "." + f + tail) == n as real + FractionValue(f)
  {
    var w := Numeral(n);
    var s := w + "." + f + tail;
    assert s == w + ("." + (f + tail));
    assert s[0] == w[0];
    AtofOfDigitStart(s);
    MantissaOfDecimal(w, f, tail);
    WholeValueOfNumeral(n);
  }

  /** The exponent is applied: "2e3" reads as 2000. */
  lemma ExponentIsApplied()
    ensures Atof("2e3") == 2000.0
  {
  }

  /** A negative exponent divides: "15e-1.obj" reads as 1.5. */
  lemma NegativeExponentIsApplied()
    ensures Atof("15e-1.obj") == 1.5
  {
    var s := "15e-1.obj";
    assert DigitPrefix(s) == "15" && AfterDigits(s) == "e-1.obj" by {
      assert s[1..] == "5e-1.obj" && s[1..][1..] == "e-1.obj";
    }
    assert Exponent("e-1.obj") == -1 by {
      assert "e-1.obj"[1..] == "-1.obj" && "e-1.obj"[1..][1..] == "1.obj";
      assert DigitPrefix("1.obj") == "1" by {
        assert "1.obj"[1..] == ".obj";
      }
      assert WholeValue("1") == 1 by {
        assert "1"[..0] == [];
      }
    }
    assert WholeValue("15") == 15 by {
      assert "15"[..1] == "1";
    }
  }

  /** An 'e' without digits after it is left unread: "7e.obj" reads as 7. */
  lemma BareExponentIsIgnored()
    ensures Atof("7e.obj") == 7.0
  {
    var s := "7e.obj";
    assert AfterDigits(s) == "e.obj" by {
      assert s[1..] == "e.obj";
    }
    assert Exponent("e.obj") == 0 by {
      assert "e.obj"[1..] == ".obj";
    }
  }

  /** Lower-case letter of an ASCII letter; any other character unchanged. */
  function LowerCase(c: char): char
  {
    if 'A' <= c <= 'Z' then (c as int + 32) as char else c
  }

  /** `t` starts with the lower-case word `w`, ignoring case. */
  predicate StartsWithWord(t: string, w: string)
  {
    |t| >= |w| && forall k :: 0 <= k < |w| ==> LowerCase(t[k]) == w[k]
  }

  /** `strtod` reads "inf", "infinity" and "nan", in any case, as infinity
      or NaN; the reading modelled here has no such values. */
  predicate NamesSpecialValue(t: string)
  {
    StartsWithWord(t, "inf") || StartsWithWord(t, "nan")
  }

  /** A token whose first non-blank character is not a digit, a sign or a
      decimal point, and which does not spell infinity or NaN, reads as
      zero; in particular such a path never reads as a positive number. */
  lemma NonNumericReadsZero(s: string)
    requires SkipSpace(s) == [] || !(IsDigit(SkipSpace(s)[0]) || SkipSpace(s)[0] in "+-.")
    requires !NamesSpecialValue(SkipSpace(s))
    ensures Atof(s) == 0.0
  {
    var t := SkipSpace(s);
    assert MantissaValue(t) == 0.0;
    var e := Exponent(AfterMantissa(t));
    ShiftsArePowers(0.0, if e >= 0 then e else -e);
    assert Atof(s) == UnsignedValue(t);
  }

  /** A token whose first non-blank character is '-' never reads as positive. */
  lemma MinusNeverPositive(s: string)
    requires SkipSpace(s) != [] && SkipSpace(s)[0] == '-'
    ensures Atof(s) <= 0.0
  {
    UnsignedNonNegative(SkipSpace(s)[1..]);
  }
}
