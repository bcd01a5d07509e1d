/**
 * The strict parse of the `date` column: `pd.to_datetime(cell, format="%d %b")`.
 * The text carries no year, so every parsed day falls in the parser's default
 * year, 1900, and a cell that does not match the format aborts the load.
 */
module Dates {
  import opened Wrappers
  import opened Text

  /** A parsed `date` cell: a calendar day, or pandas' not-a-time for a missing cell. */
  datatype Stamp = Date(year: int, month: nat, day: nat) | NaT

  /** The year `strptime` fills in when the format names none. */
  const DefaultYear: int := 1900

  predicate IsLeapYear(y: int) {
    y % 4 == 0 && (y % 100 != 0 || y % 400 == 0)
  }

  function DaysInMonth(y: int, m: nat): (n: nat)
    requires 1 <= m <= 12
    ensures 28 <= n <= 31
  {
    if m == 2 then (if IsLeapYear(y) then 29 else 28)
    else if m == 4 || m == 6 || m == 9 || m == 11 then 30
    else 31
  }

  predicate ValidDate(y: int, m: nat, d: nat) {
    1 <= m <= 12 && 1 <= d <= DaysInMonth(y, m)
  }

  /**
   * Cell texts that reach `to_datetime` as missing: the texts `read_csv` turns
   * into NaN by default, and the texts `to_datetime` itself reads as NaT.
   * They are grouped by length, so that a cell is compared with at most nine.
   */
  predicate IsMissingMarker(c: string)
    ensures |c| == 0 ==> IsMissingMarker(c)
    ensures IsMissingMarker(c) ==> |c| <= 8
  {
    if |c| == 0 then true
    else if |c| == 2 then c == "NA"
    else if |c| == 3 then
      c == "#NA" || c == "N/A" || c == "NaN" || c == "n/a" || c == "nan" || c == "NaT" || c == "nat" || c == "NAT" || c == "NAN"
    else if |c| == 4 then
      c == "#N/A" || c == "-NaN" || c == "-nan" || c == "<NA>" || c == "NULL" || c == "None" || c == "null"
    else if |c| == 6 then c == "1.#IND"
    else if |c| == 7 then c == "-1.#IND" || c == "1.#QNAN"
    else if |c| == 8 then c == "#N/A N/A" || c == "-1.#QNAN"
    else false
  }

  /** Month abbreviations as `%b` prints them in the C locale. */
  const MonthNames: seq<string> :=
    ["Jan", "Feb", "Mar", "Apr", "May", "Jun", "Jul", "Aug", "Sep", "Oct", "Nov", "Dec"]

  /** ASCII lower-casing, the case-insensitive match of `%b`. */
  function Lower(c: char): char {
    if 'A' <= c <= 'Z' then (c as int + 32) as char else c
  }

  /** The month whose lower-case abbreviation is `a b c`; 0 when none is. */
  function MonthOfLetters(a: char, b: char, c: char): (m: nat)
    ensures m <= 12
  {
    if a == 'j' && b == 'a' && c == 'n' then 1
    else if a == 'f' && b == 'e' && c == 'b' then 2
    else if a == 'm' && b == 'a' && c == 'r' then 3
    else if a == 'a' && b == 'p' && c == 'r' then 4
    else if a == 'm' && b == 'a' && c == 'y' then 5
    else if a == 'j' && b == 'u' && c == 'n' then 6
    else if a == 'j' && b == 'u' && c == 'l' then 7
    else if a == 'a' && b == 'u' && c == 'g' then 8
    else if a == 's' && b == 'e' && c == 'p' then 9
    else if a == 'o' && b == 'c' && c == 't' then 10
    else if a == 'n' && b == 'o' && c == 'v' then 11
    else if a == 'd' && b == 'e' && c == 'c' then 12
    else 0
  }

  /** The month an abbreviation names, ignoring case; 0 when it names none. */
  function MonthNumber(t: string): (m: nat)
    ensures m <= 12
  {
    if |t| == 3 then MonthOfLetters(Lower(t[0]), Lower(t[1]), Lower(t[2])) else 0
  }

  predicate IsNonZeroDigit(c: char) {
    '1' <= c <= '9'
  }

  /** The two-digit alternatives of `%d`: `3[01]`, `[12][0-9]` and `0[1-9]`. */
  predicate IsTwoDigitDay(c0: char, c1: char) {
    || (c0 == '3' && (c1 == '0' || c1 == '1'))
    || ((c0 == '1' || c0 == '2') && IsDigit(c1))
    || (c0 == '0' && IsNonZeroDigit(c1))
  }

  /** What follows the day: one or more whitespace characters, then a month abbreviation, then the end. */
  function MonthAfter(day: nat, rest: string): (r: Option<(nat, nat)>)
    ensures r.Some? ==> r.value.0 == day && 1 <= r.value.1 <= 12
  {
    if |rest| >= 4 && AllSpace(rest[..|rest| - 3]) then
      var m := MonthNumber(rest[|rest| - 3..]);
      if m == 0 then None else Some((day, m))
    else None
  }

  /**
   * `%d %b` matched against the whole cell: the day is `3[01]`, `[12][0-9]`,
   * `0[1-9]`, `[1-9]` or a space and `[1-9]`; the single space of the format
   * matches one or more whitespace characters. Gives (day, month).
   */
  function ParseDayMonth(s: string): (r: Option<(nat, nat)>)
    ensures r.Some? ==> 1 <= r.value.0 <= 31 && 1 <= r.value.1 <= 12
  {
    if |s| >= 2 && s[0] == ' ' && IsNonZeroDigit(s[1]) then
      MonthAfter(DigitValue(s[1]), s[2..])
    else if |s| >= 2 && IsTwoDigitDay(s[0], s[1]) then
      MonthAfter(10 * DigitValue(s[0]) + DigitValue(s[1]), s[2..])
    else if |s| >= 1 && IsNonZeroDigit(s[0]) then
      MonthAfter(DigitValue(s[0]), s[1..])
    else None
  }

  /**
   * One `date` cell: NaT for a missing cell, the day in the default year for a
   * well-formed one, and `None` (the load fails) for anything else, including
   * a day the month does not have in 1900.
   */
  function ParseDate(cell: string): (r: Option<Stamp>)
    ensures r == Some(NaT) <==> IsMissingMarker(cell)
    ensures r.None? <==>
      && !IsMissingMarker(cell)
      && (ParseDayMonth(cell).None? || ParseDayMonth(cell).value.0 > DaysInMonth(DefaultYear, ParseDayMonth(cell).value.1))
    ensures r.Some? && r.value.Date? ==>
      && r.value.year == DefaultYear
      && ValidDate(r.value.year, r.value.month, r.value.day)
      && ParseDayMonth(cell) == Some((r.value.day, r.value.month))
  {
    if IsMissingMarker(cell) then Some(NaT)
    else match ParseDayMonth(cell)
      case None => None
      case Some((d, m)) => if d <= DaysInMonth(DefaultYear, m) then Some(Date(DefaultYear, m, d)) else None
  }

  /** `strftime("%d %b")`: a zero-padded day, a space and the month abbreviation. */
  function Format(t: Stamp): (s: string)
    requires t.Date? && ValidDate(t.year, t.month, t.day)
    ensures |s| == 6 && s[2] == ' '
  {
    ['0' + (t.day / 10) as char, '0' + (t.day % 10) as char, ' '] + MonthNames[t.month - 1]
  }

  /** Every abbreviation `%b` prints reads back as its own month. */
  lemma MonthNumberOfName(m: nat)
    requires 1 <= m <= 12
    ensures MonthNumber(MonthNames[m - 1]) == m
  {
    var t := MonthNames[m - 1];
    assert |t| == 3;
  }

  /** A text `%d %b` accepts starts with a digit or a space, and then a digit or whitespace. */
  lemma DayMonthShape(s: string)
    requires ParseDayMonth(s).Some?
    ensures |s| >= 2 && (IsDigit(s[0]) || s[0] == ' ') && (IsDigit(s[1]) || IsSpace(s[1]))
  {
    if !(|s| >= 2 && s[0] == ' ' && IsNonZeroDigit(s[1])) && !(|s| >= 2 && IsTwoDigitDay(s[0], s[1])) {
      var rest := s[1..];
      assert rest[..|rest| - 3][0] == s[1];
    }
  }

  /** No missing-value marker has the shape of a day and a month. */
  lemma NoMarkerIsADate(cell: string)
    requires |cell| >= 2 && (IsDigit(cell[0]) || cell[0] == ' ') && (IsDigit(cell[1]) || IsSpace(cell[1]))
    ensures !IsMissingMarker(cell)
  {
  }

  /** What `strftime("%d %b")` prints, the strict parser reads back as the same day. */
  lemma FormatRoundTrip(t: Stamp)
    requires t.Date? && t.year == DefaultYear && ValidDate(t.year, t.month, t.day)
    ensures ParseDate(Format(t)) == Some(t)
  {
    var s := Format(t);
    var d0, d1 := s[0], s[1];
    assert IsDigit(d0) && IsDigit(d1) && DigitValue(d0) == t.day / 10 && DigitValue(d1) == t.day % 10;
    assert IsTwoDigitDay(d0, d1);
    var rest := s[2..];
    assert rest[..1] == " " && rest[1..] == MonthNames[t.month - 1];
    MonthNumberOfName(t.month);
    assert MonthAfter(t.day, rest) == Some((t.day, t.month));
    NoMarkerIsADate(s);
  }

  /**
   * The ways `%d` spells day `d`: one digit `1` to `9`, a space and such a
   * digit, or two digits worth 1 to 31 (`01`, `9`, ` 9`, `31`).
   */
  predicate DaySpelling(p: string, d: nat) {
    || (|p| == 1 && IsNonZeroDigit(p[0]) && DigitValue(p[0]) == d)
    || (|p| == 2 && p[0] == ' ' && IsNonZeroDigit(p[1]) && DigitValue(p[1]) == d)
    || (|p| == 2 && IsDigit(p[0]) && IsDigit(p[1]) && 10 * DigitValue(p[0]) + DigitValue(p[1]) == d && 1 <= d <= 31)
  }

  /** The ways `%b` spells month `m`: its abbreviation in any mix of ASCII letter case. */
  predicate MonthSpelling(t: string, m: nat) {
    && |t| == 3 && 1 <= m <= 12
    && Lower(t[0]) == Lower(MonthNames[m - 1][0])
    && Lower(t[1]) == Lower(MonthNames[m - 1][1])
    && Lower(t[2]) == Lower(MonthNames[m - 1][2])
  }

  /** The text `%d %b` matches for day `d` of month `m`: a day, one or more whitespace characters, a month. */
  ghost predicate IsDateSpelling(cell: string, d: nat, m: nat) {
    exists p, w, t :: cell == p + w + t && DaySpelling(p, d) && |w| > 0 && AllSpace(w) && MonthSpelling(t, m)
  }

  /** Every spelling of a month reads as that month. */
  lemma MonthSpellingRead(t: string, m: nat)
    requires MonthSpelling(t, m)
    ensures MonthNumber(t) == m
  {
    MonthNumberOfName(m);
    assert |MonthNames[m - 1]| == 3;
  }

  /** Every text that reads as a month is one of that month's spellings. */
  lemma MonthReadIsSpelling(t: string)
    requires MonthNumber(t) != 0
    ensures MonthSpelling(t, MonthNumber(t))
  {
    var m := MonthNumber(t);
    assert |t| == 3;
    var n := MonthNames[m - 1];
    if m <= 6 {
      if m == 1 { assert n == "Jan"; } else if m == 2 { assert n == "Feb"; } else if m == 3 { assert n == "Mar"; }
      else if m == 4 { assert n == "Apr"; } else if m == 5 { assert n == "May"; } else { assert n == "Jun"; }
    } else {
      if m == 7 { assert n == "Jul"; } else if m == 8 { assert n == "Aug"; } else if m == 9 { assert n == "Sep"; }
      else if m == 10 { assert n == "Oct"; } else if m == 11 { assert n == "Nov"; } else { assert n == "Dec"; }
    }
  }

  /** What follows the day reads as month `m` exactly when it is whitespace and then a spelling of `m`. */
  lemma MonthAfterSpelling(day: nat, w: string, t: string, m: nat)
    requires |w| > 0 && AllSpace(w) && MonthSpelling(t, m)
    ensures MonthAfter(day, w + t) == Some((day, m))
  {
    var rest := w + t;
    assert rest[..|rest| - 3] == w && rest[|rest| - 3..] == t;
    MonthSpellingRead(t, m);
  }

  /** Two digits worth 1 to 31 are one of the two-digit forms of `%d`. */
  lemma TwoDigitDays(c0: char, c1: char)
    requires IsDigit(c0) && IsDigit(c1) && 1 <= 10 * DigitValue(c0) + DigitValue(c1) <= 31
    ensures IsTwoDigitDay(c0, c1)
  {
  }

  /** Day `d` spelt as `%d` allows it, then whitespace, then month `m` spelt as `%b` allows it, reads as (d, m). */
  lemma DayMonthOfSpelling(p: string, w: string, t: string, d: nat, m: nat)
    requires DaySpelling(p, d) && |w| > 0 && AllSpace(w) && MonthSpelling(t, m)
    ensures ParseDayMonth(p + w + t) == Some((d, m))
  {
    var s := p + w + t;
    MonthAfterSpelling(d, w, t, m);
    if |p| == 1 {
      assert s[0] == p[0] && s[1] == w[0] && s[1..] == w + t;
      assert !IsDigit(s[1]);
    } else if p[0] == ' ' {
      assert s[0] == ' ' && s[1] == p[1] && s[2..] == w + t;
    } else {
      assert s[0] == p[0] && s[1] == p[1] && s[2..] == w + t;
      TwoDigitDays(p[0], p[1]);
    }
  }

  /** Whatever `%d %b` reads as (d, m) is a spelling of day `d` and month `m`. */
  lemma SpellingOfDayMonth(s: string)
    requires ParseDayMonth(s).Some?
    ensures IsDateSpelling(s, ParseDayMonth(s).value.0, ParseDayMonth(s).value.1)
  {
    if |s| >= 2 && s[0] == ' ' && IsNonZeroDigit(s[1]) {
      SpellingAfterPrefix(s, 2, DigitValue(s[1]));
    } else if |s| >= 2 && IsTwoDigitDay(s[0], s[1]) {
      SpellingAfterPrefix(s, 2, 10 * DigitValue(s[0]) + DigitValue(s[1]));
    } else {
      SpellingAfterPrefix(s, 1, DigitValue(s[0]));
    }
  }

  lemma SpellingAfterPrefix(s: string, k: nat, d: nat)
    requires k <= |s| && DaySpelling(s[..k], d) && MonthAfter(d, s[k..]).Some?
    ensures IsDateSpelling(s, d, MonthAfter(d, s[k..]).value.1)
  {
    assert s == s[..k] + s[k..];
    SpellingAfterDay(s, s[..k], s[k..], d);
  }

  /** A spelling of day `d` followed by what reads as a month makes a date spelling. */
  lemma SpellingAfterDay(s: string, p: string, rest: string, d: nat)
    requires s == p + rest && DaySpelling(p, d) && MonthAfter(d, rest).Some?
    ensures IsDateSpelling(s, d, MonthAfter(d, rest).value.1)
  {
    var w, t := rest[..|rest| - 3], rest[|rest| - 3..];
    MonthReadIsSpelling(t);
    assert rest == w + t;
    SpellingWitness(s, p, w, t, d, MonthNumber(t));
  }

  lemma SpellingWitness(s: string, p: string, w: string, t: string, d: nat, m: nat)
    requires s == p + w + t && DaySpelling(p, d) && |w| > 0 && AllSpace(w) && MonthSpelling(t, m)
    ensures IsDateSpelling(s, d, m)
  {
  }

  /**
   * The strict parse reads day `d` of month `m` exactly when the cell is a
   * `%d %b` spelling of them and the day exists in the default year.
   */
  lemma ParseDateAcceptsSpellings(cell: string, d: nat, m: nat)
    ensures ParseDate(cell) == Some(Date(DefaultYear, m, d)) <==> ValidDate(DefaultYear, m, d) && IsDateSpelling(cell, d, m)
  {
    if ValidDate(DefaultYear, m, d) && IsDateSpelling(cell, d, m) {
      var p, w, t :| cell == p + w + t && DaySpelling(p, d) && |w| > 0 && AllSpace(w) && MonthSpelling(t, m);
      DayMonthOfSpelling(p, w, t, d, m);
      DayMonthShape(cell);
      NoMarkerIsADate(cell);
    }
    if ParseDate(cell) == Some(Date(DefaultYear, m, d)) {
      SpellingOfDayMonth(cell);
    }
  }

  /**
   * A cell fails the load exactly when it is no missing marker and no
   * `%d %b` spelling of a day the default year has.
   */
  lemma ParseDateRejects(cell: string)
    ensures ParseDate(cell).None? <==>
      !IsMissingMarker(cell) && forall d, m :: !(ValidDate(DefaultYear, m, d) && IsDateSpelling(cell, d, m))
  {
    if ParseDate(cell).Some? && !IsMissingMarker(cell) {
      var st := ParseDate(cell).value;
      ParseDateAcceptsSpellings(cell, st.day, st.month);
    }
    forall d, m | ValidDate(DefaultYear, m, d) && IsDateSpelling(cell, d, m)
      ensures ParseDate(cell).Some?
    {
      ParseDateAcceptsSpellings(cell, d, m);
    }
  }

  /** `" 1 Nov"` and `"01\tnOV"` are other spellings of the 1st of November. */
  lemma OtherSpellingsAccepted()
    ensures ParseDate(" 1 Nov") == Some(Date(DefaultYear, 11, 1))
    ensures ParseDate("01\tnOV") == Some(Date(DefaultYear, 11, 1))
  {
    assert MonthNames[10] == "Nov";
    SpelledFirstOfNovember(" 1 Nov", " 1", " ", "Nov");
    SpelledFirstOfNovember("01\tnOV", "01", "\t", "nOV");
  }

  lemma SpelledFirstOfNovember(cell: string, p: string, w: string, t: string)
    requires cell == p + w + t && DaySpelling(p, 1) && |w| > 0 && AllSpace(w) && MonthSpelling(t, 11)
    ensures ParseDate(cell) == Some(Date(DefaultYear, 11, 1))
  {
    ParseDateAcceptsSpellings(cell, 1, 11);
  }

  /** `"11 Nov"` is the 11th of November of the default year. */
  lemma ParseDateExample()
    ensures ParseDate("11 Nov") == Some(Date(DefaultYear, 11, 11))
  {
    assert Format(Date(DefaultYear, 11, 11)) == "11 Nov";
    FormatRoundTrip(Date(DefaultYear, 11, 11));
  }

  /** 1900 is not a leap year, so `"29 Feb"` aborts the load. */
  lemma LeapDayRejected()
    ensures ParseDate("29 Feb") == None
  {
    var s := "29 Feb";
    assert IsTwoDigitDay(s[0], s[1]);
    assert s[2..][..1] == " " && s[2..][1..] == "Feb";
    MonthNumberOfName(2);
    assert ParseDayMonth(s) == Some((29, 2));
    NoMarkerIsADate(s);
  }

  /** A day no month has does not parse. */
  lemma DayOutOfRangeRejected()
    ensures ParseDate("32 Jan") == None
  {
    var b := "32 Jan";
    assert !IsTwoDigitDay(b[0], b[1]);
    assert b[1..][..|b[1..]| - 3] == "2 " && !IsSpace(b[1]);
    NoMarkerIsADate(b);
  }

  /** The month before the day does not parse. */
  lemma MonthFirstRejected()
    ensures ParseDate("Nov 11") == None
  {
    var a := "Nov 11";
    assert !IsDigit(a[0]) && a[0] != ' ';
    assert a[1] != '.';
  }

  /**
   * The order `sort_values` puts parsed dates in: chronological, with NaT
   * after every date.
   */
  predicate StampLe(a: Stamp, b: Stamp)
    ensures a == b ==> StampLe(a, b)
    ensures a.NaT? && StampLe(a, b) ==> b.NaT?
  {
    match b
    case NaT => true
    case Date(y, m, d) =>
      a.Date? && (a.year < y || (a.year == y && (a.month < m || (a.month == m && a.day <= d))))
  }

  /** Two dates of the default year are ordered by (month, day). */
  lemma OrderIsMonthDay(a: Stamp, b: Stamp)
    requires a.Date? && b.Date? && a.year == DefaultYear && b.year == DefaultYear
    ensures StampLe(a, b) <==> (a.month < b.month || (a.month == b.month && a.day <= b.day))
  {
  }

  lemma StampLeTransitive(a: Stamp, b: Stamp, c: Stamp)
    requires StampLe(a, b) && StampLe(b, c)
    ensures StampLe(a, c)
  {
  }

  lemma StampLeTotal(a: Stamp, b: Stamp)
    ensures StampLe(a, b) || StampLe(b, a)
  {
  }
}
