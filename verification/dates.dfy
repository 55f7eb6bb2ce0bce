/** Calendar dates as the application stores them: `YYYY-MM-DD` strings, with a
    parsed (year, month, day) view, Gregorian month lengths, the order in which
    the attendance list is kept, and the `parseInt` of the month and year
    selectors. */
module Dates {
  import opened Common

  /** A calendar day; `month` and `day` are 1-based. */
  datatype Ymd = Ymd(year: int, month: int, day: int)

  predicate IsLeapYear(y: int)
  {
    y % 4 == 0 && (y % 100 != 0 || y % 400 == 0)
  }

  /** Number of days of month `m` (1-based) in year `y`: the day that
      `new Date(y, m, 0).getDate()` yields. */
  function DaysInMonth(y: int, m: int): (n: int)
    requires 1 <= m <= 12
    ensures 28 <= n <= 31
  {
    if m == 2 then (if IsLeapYear(y) then 29 else 28)
    else if m == 4 || m == 6 || m == 9 || m == 11 then 30
    else 31
  }

  /** Days in the months `from`..12 of year `y`. */
  function DaysFromMonth(y: int, from: int): int
    requires 1 <= from <= 13
    decreases 13 - from
  {
    if from == 13 then 0 else DaysInMonth(y, from) + DaysFromMonth(y, from + 1)
  }

  /** The twelve month lengths add up to the length of the Gregorian year. */
  lemma YearLength(y: int)
    ensures DaysFromMonth(y, 1) == if IsLeapYear(y) then 366 else 365
  {
  }

  predicate ValidYmd(d: Ymd)
  {
    0 <= d.year <= 9999 && 1 <= d.month <= 12 && 1 <= d.day <= DaysInMonth(d.year, d.month)
  }

  /** Chronological order of days. */
  predicate YmdLe(x: Ymd, y: Ymd)
  {
    x.year < y.year
    || (x.year == y.year && (x.month < y.month || (x.month == y.month && x.day <= y.day)))
  }

  /** The day before `d`. */
  function PrevDay(d: Ymd): (p: Ymd)
    requires ValidYmd(d) && d.year >= 1
    ensures ValidYmd(p) && YmdLe(p, d) && p != d
    ensures forall e :: ValidYmd(e) && YmdLe(p, e) && YmdLe(e, d) ==> e == p || e == d
  {
    if d.day > 1 then Ymd(d.year, d.month, d.day - 1)
    else if d.month > 1 then Ymd(d.year, d.month - 1, DaysInMonth(d.year, d.month - 1))
    else Ymd(d.year - 1, 12, 31)
  }

  // ---------------------------------------------------------------- digits

  predicate IsDigit(c: char)
  {
    '0' <= c <= '9'
  }

  predicate AllDigits(s: string)
  {
    forall i :: 0 <= i < |s| ==> IsDigit(s[i])
  }

  function Pow10(n: nat): (p: nat)
    ensures p >= 1
  {
    if n == 0 then 1 else 10 * Pow10(n - 1)
  }

  function DigitChar(d: int): (c: char)
    requires 0 <= d <= 9
    ensures IsDigit(c) && c as int - '0' as int == d
  {
    ('0' as int + d) as char
  }

  /** The number a string of decimal digits denotes. */
  function DigitsValue(s: string): (v: nat)
    requires AllDigits(s)
    ensures v < Pow10(|s|)
  {
    if s == [] then 0
    else 10 * DigitsValue(s[..|s| - 1]) + (s[|s| - 1] as int - '0' as int)
  }

  /** `n` written with exactly `width` digits, zero-padded on the left. */
  function Pad(n: nat, width: nat): (r: string)
    requires n < Pow10(width)
    ensures |r| == width && AllDigits(r) && DigitsValue(r) == n
  {
    if width == 0 then ""
    else
      SplitLastDigit(n, width);
      var r := Pad(n / 10, width - 1) + [DigitChar(n % 10)];
      assert r[..|r| - 1] == Pad(n / 10, width - 1);
      r
  }

  lemma SplitLastDigit(n: nat, width: nat)
    requires 0 < width && n < Pow10(width)
    ensures n == 10 * (n / 10) + n % 10 && 0 <= n % 10 < 10 && n / 10 < Pow10(width - 1)
  {
  }

  /** A digit string is the zero-padded rendering of its own value. */
  lemma {:induction false} PadDigitsValue(s: string)
    requires AllDigits(s)
    ensures Pad(DigitsValue(s), |s|) == s
  {
    if s != [] {
      var front := s[..|s| - 1];
      var f := DigitsValue(front);
      var d := s[|s| - 1] as int - '0' as int;
      assert DigitsValue(s) == 10 * f + d;
      DivMod10(f, d);
      calc {
        Pad(DigitsValue(s), |s|);
        { PadStep(10 * f + d, |s|); }
        Pad(f, |s| - 1) + [DigitChar(d)];
        { PadDigitsValue(front); }
        front + [s[|s| - 1]];
      }
      assert s == front + [s[|s| - 1]];
    }
  }

  /** How `Pad` produces its last digit. */
  lemma PadStep(n: nat, width: nat)
    requires 0 < width && n < Pow10(width)
    ensures Pad(n, width) == Pad(n / 10, width - 1) + [DigitChar(n % 10)]
  {
  }

  lemma DivMod10(q: nat, d: int)
    requires 0 <= d < 10
    ensures (10 * q + d) / 10 == q && (10 * q + d) % 10 == d
  {
  }

  // ---------------------------------------------------------------- ISO dates

  /** `YYYY-MM-DD`: ten characters, digits around two dashes. */
  predicate IsDateShaped(s: string)
  {
    |s| == 10 && s[4] == '-' && s[7] == '-'
    && AllDigits(s[..4]) && AllDigits(s[5..7]) && AllDigits(s[8..])
  }

  function Fields(s: string): Ymd
    requires IsDateShaped(s)
  {
    Ymd(DigitsValue(s[..4]), DigitsValue(s[5..7]), DigitsValue(s[8..]))
  }

  /** The (year, month, day) a `YYYY-MM-DD` string names, or None when the
      string is not a date of the Gregorian calendar. */
  function Parse(s: string): (r: Option<Ymd>)
    ensures r.Some? ==> ValidYmd(r.value) && IsDateShaped(s)
  {
    if IsDateShaped(s) && ValidYmd(Fields(s)) then Some(Fields(s)) else None
  }

  /** The `YYYY-MM-DD` string of a day; `Parse` reads the day back. */
  function Format(d: Ymd): (s: string)
    requires ValidYmd(d)
    ensures |s| == 10 && Parse(s) == Some(d)
  {
    var y, m, dd := Pad(d.year, 4), Pad(d.month, 2), Pad(d.day, 2);
    var s := y + "-" + m + "-" + dd;
    assert s[..4] == y && s[5..7] == m && s[8..] == dd;
    s
  }

  /** Every date string is the canonical rendering of the day it names, so
      `Format` and `Parse` are inverse bijections. */
  lemma FormatParse(s: string)
    requires Parse(s).Some?
    ensures Format(Parse(s).value) == s
  {
    var d := Parse(s).value;
    PadDigitsValue(s[..4]);
    PadDigitsValue(s[5..7]);
    PadDigitsValue(s[8..]);
    assert Pad(d.year, 4) == s[..4] && Pad(d.month, 2) == s[5..7] && Pad(d.day, 2) == s[8..];
    assert s == s[..4] + "-" + s[5..7] + "-" + s[8..];
  }

  predicate IsDate(s: string)
  {
    Parse(s).Some?
  }

  /** `date` falls in month `month` (1-based) of `year`; a string that is not a
      date falls in no month, as a JavaScript `Invalid Date` does. */
  predicate InMonth(date: string, month: int, year: int)
  {
    Parse(date).Some? && Parse(date).value.month == month && Parse(date).value.year == year
  }

  // ---------------------------------------------------------------- order

  /** Lexicographic order of strings, character by character. */
  predicate LexLe(a: string, b: string)
  {
    if a == [] then true
    else if b == [] then false
    else if a[0] != b[0] then a[0] < b[0]
    else LexLe(a[1..], b[1..])
  }

  lemma {:induction false} LexLeReflexive(a: string)
    ensures LexLe(a, a)
  {
    if a != [] {
      LexLeReflexive(a[1..]);
    }
  }

  lemma {:induction false} LexLeTotal(a: string, b: string)
    ensures LexLe(a, b) || LexLe(b, a)
  {
    if a != [] && b != [] && a[0] == b[0] {
      LexLeTotal(a[1..], b[1..]);
    }
  }

  lemma {:induction false} LexLeAntisymmetric(a: string, b: string)
    requires LexLe(a, b) && LexLe(b, a)
    ensures a == b
  {
    if a != [] && b != [] {
      LexLeAntisymmetric(a[1..], b[1..]);
      assert a == [a[0]] + a[1..] && b == [b[0]] + b[1..];
    }
  }

  lemma {:induction false} LexLeTransitive(a: string, b: string, c: string)
    requires LexLe(a, b) && LexLe(b, c)
    ensures LexLe(a, c)
  {
    if a != [] && b != [] && c != [] && a[0] == b[0] && b[0] == c[0] {
      LexLeTransitive(a[1..], b[1..], c[1..]);
    }
  }

  /** Two equally long prefixes decide the order unless they are equal. */
  lemma {:induction false} LexLeConcat(p: string, q: string, p': string, q': string)
    requires |p| == |p'|
    ensures LexLe(p + q, p' + q') <==> if p == p' then LexLe(q, q') else LexLe(p, p')
  {
    if p == [] {
      assert p + q == q && p' + q' == q';
    } else {
      assert (p + q)[0] == p[0] && (p + q)[1..] == p[1..] + q;
      assert (p' + q')[0] == p'[0] && (p' + q')[1..] == p'[1..] + q';
      LexLeConcat(p[1..], q, p'[1..], q');
      if p[0] == p'[0] && p[1..] == p'[1..] {
        assert p == [p[0]] + p[1..] && p' == [p'[0]] + p'[1..];
      }
    }
  }

  /** On digit strings of one length, lexicographic order is numeric order. */
  lemma {:induction false} DigitsLexOrder(a: string, b: string)
    requires |a| == |b| && AllDigits(a) && AllDigits(b)
    ensures LexLe(a, b) <==> DigitsValue(a) <= DigitsValue(b)
    decreases |a|
  {
    if a != [] {
      var n := |a| - 1;
      var a', b' := a[..n], b[..n];
      var x, y := a[n] as int - '0' as int, b[n] as int - '0' as int;
      assert a == a' + [a[n]] && b == b' + [b[n]];
      LexLeConcat(a', [a[n]], b', [b[n]]);
      DigitsLexOrder(a', b');
      DigitsLexOrder(b', a');
      if a' != b' {
        LexLeTotal(a', b');
        if LexLe(a', b') && LexLe(b', a') {
          LexLeAntisymmetric(a', b');
        }
      }
      assert DigitsValue(a) == 10 * DigitsValue(a') + x;
      assert DigitsValue(b) == 10 * DigitsValue(b') + y;
    }
  }

  /** Equally long digit strings with one value are one string. */
  lemma DigitsInjective(a: string, b: string)
    requires |a| == |b| && AllDigits(a) && AllDigits(b) && DigitsValue(a) == DigitsValue(b)
    ensures a == b
  {
    DigitsLexOrder(a, b);
    DigitsLexOrder(b, a);
    LexLeAntisymmetric(a, b);
  }

  /** For well-formed dates, ordering the strings lexicographically orders the
      days chronologically. */
  lemma DateOrderIsLexOrder(s: string, t: string)
    requires IsDate(s) && IsDate(t)
    ensures LexLe(s, t) <==> YmdLe(Parse(s).value, Parse(t).value)
  {
    var ys, yt := s[..4], t[..4];
    var ms, mt := s[5..7], t[5..7];
    var ds, dt := s[8..], t[8..];
    assert s == ys + ("-" + (ms + ("-" + ds)));
    assert t == yt + ("-" + (mt + ("-" + dt)));
    LexLeConcat(ys, "-" + (ms + ("-" + ds)), yt, "-" + (mt + ("-" + dt)));
    LexLeConcat("-", ms + ("-" + ds), "-", mt + ("-" + dt));
    LexLeConcat(ms, "-" + ds, mt, "-" + dt);
    LexLeConcat("-", ds, "-", dt);
    DigitsLexOrder(ys, yt);
    DigitsLexOrder(ms, mt);
    DigitsLexOrder(ds, dt);
    if DigitsValue(ys) == DigitsValue(yt) { DigitsInjective(ys, yt); }
    if DigitsValue(ms) == DigitsValue(mt) { DigitsInjective(ms, mt); }
  }

  // ---------------------------------------------------------------- parseInt

  /** The longest prefix of `s` made of decimal digits. */
  function LeadingDigits(s: string): (r: string)
    ensures |r| <= |s| && r == s[..|r|] && AllDigits(r)
    ensures |r| < |s| ==> !IsDigit(s[|r|])
  {
    if s == [] || !IsDigit(s[0]) then ""
    else [s[0]] + LeadingDigits(s[1..])
  }

  /** `parseInt(s)` for the decimal strings the selectors produce: an optional
      sign, then the leading digits; None stands for `NaN`. */
  function ParseInt(s: string): (r: Option<int>)
    ensures r.Some? <==> |LeadingDigits(if s != [] && (s[0] == '-' || s[0] == '+') then s[1..] else s)| > 0
  {
    var negative := s != [] && s[0] == '-';
    var body := if s != [] && (s[0] == '-' || s[0] == '+') then s[1..] else s;
    var digits := LeadingDigits(body);
    if digits == [] then None
    else if negative then Some(-(DigitsValue(digits) as int))
    else Some(DigitsValue(digits))
  }

  /** `n.toString()` for a non-negative integer. */
  function NatToString(n: nat): (s: string)
    ensures |s| >= 1 && AllDigits(s) && DigitsValue(s) == n
  {
    if n < 10 then
      var s := [DigitChar(n)];
      assert s[..0] == [];
      s
    else
      var s := NatToString(n / 10) + [DigitChar(n % 10)];
      assert s[..|s| - 1] == NatToString(n / 10);
      s
  }

  /** `parseInt` reads back what `toString` wrote. */
  lemma ParseIntNatToString(n: nat)
    ensures ParseInt(NatToString(n)) == Some(n)
  {
    var s := NatToString(n);
    LeadingDigitsOfDigits(s);
  }

  lemma {:induction false} LeadingDigitsOfDigits(s: string)
    requires AllDigits(s)
    ensures LeadingDigits(s) == s
  {
    if s != [] {
      LeadingDigitsOfDigits(s[1..]);
    }
  }

  /** `i.toString()` for any integer. */
  function IntToString(i: int): (s: string)
    ensures |s| >= 1
    ensures i >= 0 ==> AllDigits(s) && DigitsValue(s) == i
    ensures i < 0 ==> s[0] == '-' && AllDigits(s[1..]) && DigitsValue(s[1..]) == -i
  {
    if i < 0 then "-" + NatToString(-i) else NatToString(i)
  }

  /** `parseInt` reads back every integer `toString` wrote. */
  lemma ParseIntIntToString(i: int)
    ensures ParseInt(IntToString(i)) == Some(i)
  {
    if i < 0 {
      var s := IntToString(i);
      assert s[1..] == NatToString(-i);
      LeadingDigitsOfDigits(s[1..]);
    } else {
      ParseIntNatToString(i);
    }
  }

  /** The month test of filters that compare a date with `parseInt` of a
      month string and a year string: both must parse, and the date must fall
      in the month they name. */
  predicate InParsedMonth(date: string, month: string, year: string)
  {
    ParseInt(month).Some? && ParseInt(year).Some?
    && InMonth(date, ParseInt(month).value, ParseInt(year).value)
  }

  /** Selecting by the strings `toString` makes of a month and a year selects
      that month of that year. */
  lemma InParsedMonthOfToString(date: string, month: int, year: int)
    ensures InParsedMonth(date, IntToString(month), IntToString(year)) <==> InMonth(date, month, year)
  {
    ParseIntIntToString(month);
    ParseIntIntToString(year);
  }
}
