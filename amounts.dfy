/**
 * The lenient cleaning of the four money columns: every `,` is deleted, what
 * is left is read as a decimal number, and anything that is not a number
 * becomes 0 (`pd.to_numeric(..., errors="coerce").fillna(0)`).
 * Amounts are exact rationals (`real`), not binary floating point.
 */
module Amounts {
  import opened Wrappers
  import opened Text

  /** `str.replace(",", "")`. */
  function RemoveCommas(s: string): (r: string)
    ensures ',' !in r
    ensures ',' !in s ==> r == s
    ensures |r| <= |s|
  {
    if s == [] then []
    else (if s[0] == ',' then [] else [s[0]]) + RemoveCommas(s[1..])
  }

  lemma {:induction false} RemoveCommasAppend(a: string, b: string)
    ensures RemoveCommas(a + b) == RemoveCommas(a) + RemoveCommas(b)
  {
    if a == [] {
      assert a + b == b;
    } else {
      assert (a + b)[0] == a[0] && (a + b)[1..] == a[1..] + b;
      RemoveCommasAppend(a[1..], b);
    }
  }

  predicate AllDigits(s: string) {
    forall i :: 0 <= i < |s| ==> IsDigit(s[i])
  }

  function Pow10(n: nat): (p: nat)
    ensures p >= 1
  {
    if n == 0 then 1 else 10 * Pow10(n - 1)
  }

  /** The value of a string of decimal digits, most significant first. */
  function DigitsValue(s: string): (v: nat)
    requires AllDigits(s)
    ensures v < Pow10(|s|)
  {
    if s == [] then 0 else DigitsValue(s[..|s| - 1]) * 10 + DigitValue(s[|s| - 1])
  }

  /** The value of the digits after a decimal point: their integer value over a power of ten. */
  function Fraction(f: string): (v: real)
    requires AllDigits(f)
    ensures 0.0 <= v < 1.0
  {
    var a, p := DigitsValue(f) as real, Pow10(|f|) as real;
    FractionBelowOne(a, p);
    a / p
  }

  lemma FractionBelowOne(a: real, p: real)
    requires 0.0 <= a < p
    ensures 0.0 <= a / p < 1.0
  {
  }

  /** The length of the run of digits that starts `s`. */
  function LeadingDigits(s: string): (n: nat)
    ensures n <= |s| && AllDigits(s[..n])
    ensures n == |s| || !IsDigit(s[n])
  {
    if s != [] && IsDigit(s[0]) then
      var n := 1 + LeadingDigits(s[1..]);
      assert forall i :: 1 <= i < n ==> s[..n][i] == s[1..][..n - 1][i - 1];
      n
    else 0
  }

  /**
   * The unsigned numerals the cleaner accepts, stated without reference to the
   * parser: digits and at most one decimal point, with at least one digit
   * (`12`, `12.`, `.5`, `12.50`).
   */
  ghost predicate IsUnsignedNumeral(u: string) {
    && (forall i :: 0 <= i < |u| ==> IsDigit(u[i]) || u[i] == '.')
    && (forall i, j :: 0 <= i < j < |u| && u[i] == '.' ==> u[j] != '.')
    && (exists i :: 0 <= i < |u| && IsDigit(u[i]))
  }

  /** An optional `+` or `-` followed by an unsigned numeral. */
  ghost predicate IsNumeral(s: string) {
    if |s| > 0 && (s[0] == '+' || s[0] == '-') then IsUnsignedNumeral(s[1..]) else IsUnsignedNumeral(s)
  }

  lemma NumeralAfterDigits(u: string, n: nat)
    requires n == LeadingDigits(u) < |u|
    requires IsUnsignedNumeral(u)
    ensures u[n] == '.' && AllDigits(u[n + 1..]) && (n > 0 || n + 1 < |u|)
  {
    assert u[n] == '.';
    forall k | n + 1 <= k < |u| ensures IsDigit(u[k]) {
      assert u[k] != '.';
    }
    var i :| 0 <= i < |u| && IsDigit(u[i]);
    assert i < n || n < i;
  }

  /** Reads an unsigned numeral; `None` for anything else. */
  function ParseUnsigned(u: string): (r: Option<real>)
    ensures r.Some? ==> |u| > 0
  {
    var n := LeadingDigits(u);
    if n == |u| then
      if n > 0 then Some(DigitsValue(u[..n]) as real) else None
    else if u[n] == '.' && AllDigits(u[n + 1..]) && (n > 0 || n + 1 < |u|) then
      Some(DigitsValue(u[..n]) as real + Fraction(u[n + 1..]))
    else None
  }

  /** The unsigned parser accepts exactly the unsigned numerals. */
  lemma ParseUnsignedAcceptsNumerals(u: string)
    ensures ParseUnsigned(u).Some? <==> IsUnsignedNumeral(u)
  {
    var n := LeadingDigits(u);
    if n == |u| {
      if n > 0 {
        assert u[..n] == u;
        assert IsDigit(u[0]);
      }
    } else if u[n] == '.' && AllDigits(u[n + 1..]) && (n > 0 || n + 1 < |u|) {
      assert forall i :: 0 <= i < n ==> IsDigit(u[..n][i]) && u[..n][i] == u[i];
      assert forall i :: n < i < |u| ==> IsDigit(u[n + 1..][i - n - 1]) && u[n + 1..][i - n - 1] == u[i];
      assert if n > 0 then IsDigit(u[0]) else IsDigit(u[n + 1]);
    } else if IsUnsignedNumeral(u) {
      NumeralAfterDigits(u, n);
    }
  }

  /** Reads a signed numeral; `None` for anything else. */
  function ParseNumber(s: string): (r: Option<real>)
    ensures r.Some? ==> |s| > 0
  {
    if |s| > 0 && (s[0] == '+' || s[0] == '-') then
      match ParseUnsigned(s[1..])
      case None => None
      case Some(v) => Some(if s[0] == '-' then -v else v)
    else ParseUnsigned(s)
  }

  /** Unsigned numerals read as non-negative numbers. */
  lemma ParseUnsignedIsNonNegative(u: string)
    ensures ParseUnsigned(u).Some? ==> ParseUnsigned(u).value >= 0.0
  {
  }

  /** A numeral reads as a number of its sign: at most 0 after `-`, at least 0 otherwise. */
  lemma ParseNumberSign(s: string)
    ensures ParseNumber(s).Some? && |s| > 0 && s[0] == '-' ==> ParseNumber(s).value <= 0.0
    ensures ParseNumber(s).Some? && !(|s| > 0 && s[0] == '-') ==> ParseNumber(s).value >= 0.0
  {
    if |s| > 0 {
      ParseUnsignedIsNonNegative(s[1..]);
    }
    ParseUnsignedIsNonNegative(s);
  }

  /** The parser accepts exactly the numerals. */
  lemma ParseNumberAcceptsNumerals(s: string)
    ensures ParseNumber(s).Some? <==> IsNumeral(s)
  {
    if |s| > 0 && (s[0] == '+' || s[0] == '-') {
      ParseUnsignedAcceptsNumerals(s[1..]);
    } else {
      ParseUnsignedAcceptsNumerals(s);
    }
  }

  /** The cleaned value of one money cell. It never fails. */
  function CleanAmount(cell: string): (r: real)
    ensures r == 0.0 || ParseNumber(RemoveCommas(cell)) == Some(r)
  {
    match ParseNumber(RemoveCommas(cell))
    case Some(v) => v
    case None => 0.0
  }

  /**
   * A money cell cleans to the number its comma-free text denotes, or to
   * exactly 0 when that text is not a numeral.
   */
  lemma CleanAmountMeaning(cell: string)
    ensures IsNumeral(RemoveCommas(cell)) ==> ParseNumber(RemoveCommas(cell)) == Some(CleanAmount(cell))
    ensures !IsNumeral(RemoveCommas(cell)) ==> CleanAmount(cell) == 0.0
  {
    ParseNumberAcceptsNumerals(RemoveCommas(cell));
  }

  /** A thousands separator anywhere in a cell makes no difference to its value. */
  lemma CleanIgnoresSeparator(a: string, b: string)
    ensures CleanAmount(a + "," + b) == CleanAmount(a + b)
  {
    RemoveCommasAppend(a + ",", b);
    RemoveCommasAppend(a, ",");
    RemoveCommasAppend(a, b);
    assert RemoveCommas(",") == [];
    assert RemoveCommas(a) + [] == RemoveCommas(a);
  }

  /** A cell and the same cell with all its commas deleted clean to the same value. */
  lemma CleanIsCommaBlind(cell: string)
    ensures CleanAmount(RemoveCommas(cell)) == CleanAmount(cell)
  {
  }

  /** `"1,234"` reads as 1234. */
  lemma CleanThousands()
    ensures CleanAmount("1,234") == 1234.0
  {
    assert "1" + "," + "234" == "1,234" && "1" + "234" == "1234";
    DigitsOf1234();
    CleanDigits("1234");
    CleanIgnoresSeparator("1", "234");
  }

  lemma DigitsOf1234()
    ensures AllDigits("1234") && DigitsValue("1234") == 1234
  {
    assert [] + ['1'] == "1" && "1" + ['2'] == "12" && "12" + ['3'] == "123" && "123" + ['4'] == "1234";
    DigitsValueSnoc([], '1');
    DigitsValueSnoc("1", '2');
    DigitsValueSnoc("12", '3');
    DigitsValueSnoc("123", '4');
  }

  /** Empty, `"N/A"` and `"-"` clean to 0. */
  lemma CleanNonNumbers()
    ensures CleanAmount("") == 0.0
    ensures CleanAmount("N/A") == 0.0
    ensures CleanAmount("-") == 0.0
  {
    assert RemoveCommas("N/A") == "N/A";
    assert !IsNumeral("N/A") by {
      assert !IsDigit("N/A"[0]) && "N/A"[0] != '.';
    }
    assert RemoveCommas("-") == "-";
    assert "-"[1..] == "";
  }

  /** Decimal digits of a natural number, no leading zeros. */
  function NatToDigits(n: nat): (s: string)
    ensures |s| > 0 && AllDigits(s) && DigitsValue(s) == n
  {
    var d := ['0' + (n % 10) as char];
    if n < 10 then d
    else
      var s := NatToDigits(n / 10) + d;
      assert s[..|s| - 1] == NatToDigits(n / 10);
      s
  }

  /**
   * An integer written with thousands separators, the way the sheet shows
   * amounts (`-1,234,567`).
   */
  function ShowAmount(i: int): string {
    (if i < 0 then "-" else "") + Grouped(NatToDigits(if i < 0 then -i else i))
  }

  /** Inserts a `,` before every group of three digits counted from the right. */
  function Grouped(ds: string): string
  {
    if |ds| <= 3 then ds else Grouped(ds[..|ds| - 3]) + "," + ds[|ds| - 3..]
  }

  lemma {:induction false} GroupedUngroups(ds: string)
    requires AllDigits(ds)
    ensures RemoveCommas(Grouped(ds)) == ds
  {
    if |ds| > 3 {
      var hi, lo := ds[..|ds| - 3], ds[|ds| - 3..];
      assert ',' !in lo by {
        forall k | 0 <= k < |lo| ensures lo[k] != ',' { assert lo[k] == ds[|ds| - 3 + k]; }
      }
      GroupedUngroups(hi);
      RemoveCommasAppend(Grouped(hi) + ",", lo);
      RemoveCommasAppend(Grouped(hi), ",");
      assert RemoveCommas(",") == [];
      assert hi + [] + lo == ds;
    } else {
      assert ',' !in ds by {
        forall k | 0 <= k < |ds| ensures ds[k] != ',' { assert IsDigit(ds[k]); }
      }
    }
  }

  /** One more digit at the end multiplies the value by ten and adds that digit. */
  lemma DigitsValueSnoc(s: string, c: char)
    requires AllDigits(s) && IsDigit(c)
    ensures AllDigits(s + [c]) && DigitsValue(s + [c]) == DigitsValue(s) * 10 + DigitValue(c)
  {
    assert (s + [c])[..|s|] == s;
  }

  /** A string of digits reads as its value. */
  lemma UnsignedDigits(ds: string)
    requires |ds| > 0 && AllDigits(ds)
    ensures ParseUnsigned(ds) == Some(DigitsValue(ds) as real)
  {
    assert LeadingDigits(ds) == |ds|;
    assert ds[..|ds|] == ds;
  }

  /** A comma-free string of digits cleans to its value. */
  lemma CleanDigits(ds: string)
    requires |ds| > 0 && AllDigits(ds)
    ensures ParseNumber(ds) == Some(DigitsValue(ds) as real)
    ensures CleanAmount(ds) == DigitsValue(ds) as real
  {
    DigitsCommaFree(ds);
    UnsignedDigits(ds);
    ParseSigned(ds, "", ds, DigitsValue(ds) as real);
  }

  lemma DigitsCommaFree(ds: string)
    requires AllDigits(ds)
    ensures RemoveCommas(ds) == ds
  {
    assert ',' !in ds by {
      forall k | 0 <= k < |ds| ensures ds[k] != ',' { assert IsDigit(ds[k]); }
    }
  }

  /** Digits of value `n` with thousands separators, with or without a minus sign, clean to `n` or `-n`. */
  lemma CleanGroupedDigits(ds: string, n: nat)
    requires |ds| > 0 && AllDigits(ds) && DigitsValue(ds) == n
    ensures CleanAmount(Grouped(ds)) == n as real
    ensures CleanAmount("-" + Grouped(ds)) == -(n as real)
  {
    GroupedUngroups(ds);
    CleanDigits(ds);
    RemoveCommasAppend("-", Grouped(ds));
    assert RemoveCommas("-") == "-";
    UnsignedDigits(ds);
    ParseMinus("-" + ds, ds, n as real);
  }

  /** A minus sign before an unsigned numeral negates its value. */
  lemma ParseMinus(t: string, u: string, v: real)
    requires t == "-" + u && ParseUnsigned(u) == Some(v)
    ensures ParseNumber(t) == Some(-v)
  {
    assert t[0] == '-' && t[1..] == u;
  }

  /** Cleaning reads back every integer written with thousands separators. */
  lemma CleanShownAmount(i: int)
    ensures CleanAmount(ShowAmount(i)) == i as real
  {
    var n: nat := if i < 0 then -i else i;
    var ds := NatToDigits(n);
    CleanGroupedDigits(ds, n);
    if i < 0 {
      assert ShowAmount(i) == "-" + Grouped(ds);
    } else {
      assert ShowAmount(i) == Grouped(ds);
    }
  }

  /**
   * The value of the numeral `ds.fs`: all its digits read as one integer,
   * scaled down by one power of ten per digit after the point.
   */
  function DecimalValue(ds: string, fs: string): real
    requires AllDigits(ds + fs)
  {
    DigitsValue(ds + fs) as real / Pow10(|fs|) as real
  }

  /** Digits followed by digits are worth the first part shifted left plus the second. */
  lemma {:induction false} DigitsValueAppend(a: string, b: string)
    requires AllDigits(a) && AllDigits(b)
    ensures AllDigits(a + b) && DigitsValue(a + b) == DigitsValue(a) * Pow10(|b|) + DigitsValue(b)
  {
    if b == [] {
      assert a + b == a;
    } else {
      var front, c := b[..|b| - 1], b[|b| - 1];
      assert b == front + [c];
      assert a + b == (a + front) + [c];
      DigitsValueAppend(a, front);
      DigitsValueSnoc(a + front, c);
      DigitsValueSnoc(front, c);
      ShiftOneDigit(DigitsValue(a), Pow10(|front|), DigitsValue(front), DigitValue(c));
    }
  }

  lemma ShiftOneDigit(x: int, p: int, y: int, d: int)
    ensures (x * p + y) * 10 + d == x * (10 * p) + (y * 10 + d)
  {
  }

  /** Whole digits and fraction digits together are worth the decimal value. */
  lemma DecimalSplit(ds: string, fs: string)
    requires AllDigits(ds) && AllDigits(fs)
    ensures AllDigits(ds + fs) && DigitsValue(ds) as real + Fraction(fs) == DecimalValue(ds, fs)
  {
    DigitsValueAppend(ds, fs);
    AddOverPower(DigitsValue(ds), DigitsValue(fs), DigitsValue(ds + fs), Pow10(|fs|));
  }

  lemma AddOverPower(a: int, b: int, c: int, p: int)
    requires p > 0 && c == a * p + b
    ensures a as real + b as real / p as real == c as real / p as real
  {
    assert c as real == a as real * p as real + b as real;
  }

  /** The numeral `ds.fs` reads as its decimal value. */
  lemma ParseDecimal(u: string, ds: string, fs: string)
    requires AllDigits(ds) && AllDigits(fs) && |ds| + |fs| > 0
    requires u == ds + "." + fs
    ensures AllDigits(ds + fs) && ParseUnsigned(u) == Some(DecimalValue(ds, fs))
  {
    var n := LeadingDigits(u);
    assert u[|ds|] == '.';
    assert n == |ds|;
    assert u[..n] == ds && u[n + 1..] == fs;
    DecimalSplit(ds, fs);
  }

  /**
   * A cell whose comma-free text is `ds.fs`, bare or after `+` or `-`,
   * cleans to the decimal value with that sign.
   */
  lemma CleanDecimal(cell: string, sign: string, ds: string, fs: string)
    requires sign == "" || sign == "+" || sign == "-"
    requires AllDigits(ds) && AllDigits(fs) && |ds| + |fs| > 0
    requires RemoveCommas(cell) == sign + ds + "." + fs
    ensures AllDigits(ds + fs)
    ensures CleanAmount(cell) == if sign == "-" then -DecimalValue(ds, fs) else DecimalValue(ds, fs)
  {
    var u := ds + "." + fs;
    ParseDecimal(u, ds, fs);
    ParseSigned(RemoveCommas(cell), sign, u, DecimalValue(ds, fs));
  }

  /** An optional sign before an unsigned numeral gives its value that sign. */
  lemma ParseSigned(t: string, sign: string, u: string, v: real)
    requires sign == "" || sign == "+" || sign == "-"
    requires t == sign + u && ParseUnsigned(u) == Some(v)
    ensures ParseNumber(t) == Some(if sign == "-" then -v else v)
  {
    if sign == "" {
      assert t == u;
      var n := LeadingDigits(u);
      assert n > 0 ==> IsDigit(u[..n][0]);
    } else {
      assert t[0] == sign[0] && t[1..] == u;
    }
  }

  /** `"1,234.50"` reads as 1234.5. */
  lemma CleanDecimalExample()
    ensures CleanAmount("1,234.50") == 1234.5
  {
    SeparatorExample();
    CommaFreeExample();
  }

  lemma SeparatorExample()
    ensures CleanAmount("1,234.50") == CleanAmount("1234.50")
  {
    assert "1" + "," + "234.50" == "1,234.50" && "1" + "234.50" == "1234.50";
    CleanIgnoresSeparator("1", "234.50");
  }

  lemma CommaFreeExample()
    ensures CleanAmount("1234.50") == 1234.5
  {
    assert "1234" + "." + "50" == "1234.50";
    DecimalOf1234And50();
    DecimalCommaFree("1234", "50");
    CleanDecimal("1234.50", "", "1234", "50");
  }

  /** A decimal numeral without a sign has no comma to remove. */
  lemma DecimalCommaFree(ds: string, fs: string)
    requires AllDigits(ds) && AllDigits(fs)
    ensures RemoveCommas(ds + "." + fs) == "" + ds + "." + fs
  {
    var t := ds + "." + fs;
    assert ',' !in t by {
      forall k | 0 <= k < |t| ensures t[k] != ',' {
        if k < |ds| { assert t[k] == ds[k]; }
        else if k > |ds| { assert t[k] == fs[k - |ds| - 1]; }
      }
    }
  }

  lemma DecimalOf1234And50()
    ensures AllDigits("1234") && AllDigits("50") && AllDigits("1234" + "50")
    ensures DecimalValue("1234", "50") == 1234.5
  {
    DigitsOf1234();
    assert AllDigits("50") && DigitsValue("50") == 50 by {
      assert "50"[..1] == "5" && "5"[..0] == [];
    }
    DigitsValueAppend("1234", "50");
    assert Pow10(2) == 100;
    assert DigitsValue("1234" + "50") == 123450;
  }
}
