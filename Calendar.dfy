/** The part of Python's `datetime.date` that the chat plot uses: reading a
    `YYYY-MM-DD` file name (`date.fromisoformat`), writing one back (`str(date)`),
    and the day count behind `(a - b).days` (`date.toordinal`). */
module Calendar {
  import opened Wrappers
  import opened Text

  /** A proleptic Gregorian date as `(year, month, day)`. */
  datatype Date = Date(year: nat, month: nat, day: nat)

  /** `datetime.MAXYEAR`. */
  const MaxYear: nat := 9999

  predicate IsLeap(y: nat)
  {
    y % 4 == 0 && (y % 100 != 0 || y % 400 == 0)
  }

  function DaysInMonth(y: nat, m: nat): (r: nat)
    requires 1 <= m <= 12
    ensures 28 <= r <= 31
    ensures r == 29 <==> m == 2 && IsLeap(y)
  {
    if m == 2 then (if IsLeap(y) then 29 else 28)
    else if m == 4 || m == 6 || m == 9 || m == 11 then 30
    else 31
  }

  function DaysInYear(y: nat): nat
  {
    if IsLeap(y) then 366 else 365
  }

  /** The checks of the `date(year, month, day)` constructor. */
  predicate ValidDate(d: Date)
  {
    1 <= d.year <= MaxYear && 1 <= d.month <= 12 && 1 <= d.day <= DaysInMonth(d.year, d.month)
  }

  /** `a < b` on dates: the `(year, month, day)` tuples in order. */
  predicate Before(a: Date, b: Date)
  {
    a.year < b.year || (a.year == b.year && (a.month < b.month || (a.month == b.month && a.day < b.day)))
  }

  function Pow10(w: nat): (r: nat)
    ensures r > 0
  {
    if w == 0 then 1 else 10 * Pow10(w - 1)
  }

  /** `n` written with exactly `w` decimal digits, zero-padded on the left. */
  function Digits(n: nat, w: nat): (r: string)
    ensures |r| == w && forall i :: 0 <= i < |r| ==> IsDigit(r[i])
  {
    if w == 0 then [] else Digits(n / 10, w - 1) + [DigitChar(n % 10)]
  }

  /** `str(date)`, that is `date.isoformat()`: `'%04d-%02d-%02d'`. */
  function FormatIsoDate(d: Date): (r: string)
    ensures |r| == 10 && r[4] == '-' && r[7] == '-'
  {
    Digits(d.year, 4) + "-" + Digits(d.month, 2) + "-" + Digits(d.day, 2)
  }

  /** Every character of `s[lo..hi]` is a decimal digit. */
  predicate AllDigits(s: string, lo: nat, hi: nat)
    requires lo <= hi <= |s|
  {
    forall i :: lo <= i < hi ==> IsDigit(s[i])
  }

  /** `date.fromisoformat(s)` as the C implementation of Python 3.7 to 3.10 reads
      it: exactly ten characters `YYYY-MM-DD`, every `Y`, `M` and `D` a digit,
      and the three numbers must make a valid date; anything else is the
      `ValueError` it raises, here `None`. */
  function ParseIsoDate(s: string): (r: Option<Date>)
    ensures r.Some? ==> ValidDate(r.value)
  {
    if |s| == 10 && AllDigits(s, 0, 4) && s[4] == '-' && AllDigits(s, 5, 7) && s[7] == '-' && AllDigits(s, 8, 10) then
      var d := Date(DigitsValue(s[..4]), DigitsValue(s[5..7]), DigitsValue(s[8..]));
      if ValidDate(d) then Some(d) else None
    else None
  }

  /** The days of the year before month `m`, unadjusted for leap years; the
      first entry is a placeholder, as months count from 1. */
  const DaysBeforeMonthTable: seq<int> := [-1, 0, 31, 59, 90, 120, 151, 181, 212, 243, 273, 304, 334]

  /** The days of all the years before `y`, counting from year 1. */
  function DaysBeforeYear(y: nat): nat
    requires y >= 1
  {
    var k := y - 1;
    k * 365 + k / 4 - k / 100 + k / 400
  }

  /** The days of year `y` before the first of month `m`. */
  function DaysBeforeMonth(y: nat, m: nat): nat
    requires 1 <= m <= 12
  {
    DaysBeforeMonthTable[m] + (if m > 2 && IsLeap(y) then 1 else 0)
  }

  /** `date.toordinal()`: 1 for 1 January of year 1. */
  function Ordinal(d: Date): int
    requires ValidDate(d)
  {
    DaysBeforeYear(d.year) + DaysBeforeMonth(d.year, d.month) + d.day
  }

  /** `(a - b).days`. */
  function DaysBetween(a: Date, b: Date): int
    requires ValidDate(a) && ValidDate(b)
  {
    Ordinal(a) - Ordinal(b)
  }

  /** The digits of `n` read back give `n`. */
  lemma {:induction false} DigitsValueOfDigits(n: nat, w: nat)
    requires n < Pow10(w)
    ensures DigitsValue(Digits(n, w)) == n
  {
    if w > 0 {
      var s := Digits(n, w);
      assert s[..|s| - 1] == Digits(n / 10, w - 1);
      DigitsValueOfDigits(n / 10, w - 1);
    }
  }

  /** A string of digits is the padded form of the number it spells. */
  lemma {:induction false} DigitsOfDigitsValue(s: string)
    requires forall i :: 0 <= i < |s| ==> IsDigit(s[i])
    ensures DigitsValue(s) < Pow10(|s|)
    ensures Digits(DigitsValue(s), |s|) == s
  {
    if s != [] {
      var p := s[..|s| - 1];
      var c := s[|s| - 1];
      DigitsOfDigitsValue(p);
      var v := DigitsValue(p);
      var dv := c as int - '0' as int;
      assert DigitsValue(s) == v * 10 + dv;
      assert (v * 10 + dv) / 10 == v && (v * 10 + dv) % 10 == dv;
      assert s == p + [c];
    }
  }

  /** Every valid date survives a round trip through its ISO text. */
  lemma ParseFormat(d: Date)
    requires ValidDate(d)
    ensures ParseIsoDate(FormatIsoDate(d)) == Some(d)
  {
    var s := FormatIsoDate(d);
    assert s[..4] == Digits(d.year, 4);
    assert s[5..7] == Digits(d.month, 2);
    assert s[8..] == Digits(d.day, 2);
    DigitsValueOfDigits(d.year, 4);
    DigitsValueOfDigits(d.month, 2);
    DigitsValueOfDigits(d.day, 2);
  }

  /** Whatever `fromisoformat` accepts is a valid date written in its one ISO
      form, so the text and the date determine each other. */
  lemma FormatParse(s: string)
    requires ParseIsoDate(s).Some?
    ensures ValidDate(ParseIsoDate(s).value)
    ensures FormatIsoDate(ParseIsoDate(s).value) == s
  {
    var d := ParseIsoDate(s).value;
    DigitsOfDigitsValue(s[..4]);
    DigitsOfDigitsValue(s[5..7]);
    DigitsOfDigitsValue(s[8..]);
    assert s == s[..4] + "-" + s[5..7] + "-" + s[8..];
  }

  /** `(k + 1) / q` steps up exactly when `q` divides `k + 1`. */
  lemma DivStep(k: nat, q: nat)
    requires q > 0
    ensures (k + 1) / q == k / q + (if (k + 1) % q == 0 then 1 else 0)
  {
    var a, b := k / q, k % q;
    assert k == a * q + b;
    if b + 1 < q {
      DivUnique(k + 1, q, a, b + 1);
    } else {
      assert k + 1 == (a + 1) * q + 0;
      DivUnique(k + 1, q, a + 1, 0);
    }
  }

  /** Euclidean division has one quotient and one remainder. */
  lemma DivUnique(n: nat, q: nat, x: nat, r: nat)
    requires q > 0 && r < q && n == x * q + r
    ensures n / q == x && n % q == r
  {
    var x', r' := n / q, n % q;
    assert n == x' * q + r';
    if x' < x {
      assert x' * q + q <= x * q by { MulLe(x' + 1, x, q); }
    } else if x < x' {
      assert x * q + q <= x' * q by { MulLe(x + 1, x', q); }
    }
  }

  lemma MulLe(a: nat, b: nat, q: nat)
    requires a <= b
    ensures a * q <= b * q
  {
  }

  /** Each year adds its own length to the day count. */
  lemma DaysBeforeNextYear(y: nat)
    requires y >= 1
    ensures DaysBeforeYear(y + 1) == DaysBeforeYear(y) + DaysInYear(y)
  {
    var k := y - 1;
    DivStep(k, 4);
    DivStep(k, 100);
    DivStep(k, 400);
    if y % 100 == 0 {
      MultipleOf(y, 100, 25, 4);
    }
    if y % 400 == 0 {
      MultipleOf(y, 400, 4, 100);
    }
  }

  /** A multiple of `a * b` is a multiple of `b`. */
  lemma MultipleOf(y: nat, m: nat, a: nat, b: nat)
    requires m == a * b && a > 0 && b > 0 && y % m == 0
    ensures y % b == 0
  {
    var j := y / m;
    assert y == j * m;
    assert j * m == (j * a) * b;
    DivUnique(y, b, j * a, 0);
  }

  /** The day count of the years is increasing. */
  lemma {:induction false} DaysBeforeYearGrows(y: nat, z: nat)
    requires 1 <= y <= z
    ensures DaysBeforeYear(y) + (z - y) * 365 <= DaysBeforeYear(z)
    decreases z - y
  {
    if y < z {
      DaysBeforeNextYear(y);
      DaysBeforeYearGrows(y + 1, z);
    }
  }

  /** The table agrees with the month lengths: each month starts where the
      previous one ends, and December ends the year. */
  lemma DaysBeforeMonthStep(y: nat, m: nat)
    requires 1 <= m <= 12
    ensures m < 12 ==> DaysBeforeMonth(y, m + 1) == DaysBeforeMonth(y, m) + DaysInMonth(y, m)
    ensures m == 12 ==> DaysBeforeMonth(y, m) + DaysInMonth(y, m) == DaysInYear(y)
  {
  }

  /** Month `m` starts after all the earlier months of the year. */
  lemma {:induction false} DaysBeforeMonthGrows(y: nat, m: nat, n: nat)
    requires 1 <= m < n <= 12
    ensures DaysBeforeMonth(y, m) + DaysInMonth(y, m) <= DaysBeforeMonth(y, n)
    decreases n - m
  {
    DaysBeforeMonthStep(y, m);
    if m + 1 < n {
      DaysBeforeMonthGrows(y, m + 1, n);
    }
  }

  /** A date's ordinal lies within its year. */
  lemma OrdinalInYear(d: Date)
    requires ValidDate(d)
    ensures DaysBeforeYear(d.year) < Ordinal(d) <= DaysBeforeYear(d.year + 1)
  {
    DaysBeforeNextYear(d.year);
    if d.month < 12 {
      DaysBeforeMonthGrows(d.year, d.month, 12);
    }
    DaysBeforeMonthStep(d.year, 12);
  }

  /** `toordinal` keeps the order of dates: a later date is a larger number
      of days, so `(a - b).days` is positive exactly when `a` is later. */
  lemma OrdinalMonotonic(a: Date, b: Date)
    requires ValidDate(a) && ValidDate(b) && Before(a, b)
    ensures Ordinal(a) < Ordinal(b)
  {
    if a.year < b.year {
      OrdinalInYear(a);
      OrdinalInYear(b);
      DaysBeforeYearGrows(a.year + 1, b.year);
    } else if a.month < b.month {
      DaysBeforeMonthGrows(a.year, a.month, b.month);
    }
  }

  /** A date not before another is at least as many days from year 1. */
  lemma OrdinalNotBefore(a: Date, b: Date)
    requires ValidDate(a) && ValidDate(b) && !Before(a, b)
    ensures Ordinal(b) <= Ordinal(a)
  {
    if a != b {
      OrdinalMonotonic(b, a);
    }
  }

  /** Different valid dates have different ordinals; equal dates are zero
      days apart. */
  lemma OrdinalInjective(a: Date, b: Date)
    requires ValidDate(a) && ValidDate(b)
    ensures Ordinal(a) == Ordinal(b) <==> a == b
  {
    if Before(a, b) {
      OrdinalMonotonic(a, b);
    } else if Before(b, a) {
      OrdinalMonotonic(b, a);
    }
  }

  /** Zero-padded numbers of one width compare as text the way they compare
      as numbers. */
  lemma {:induction false} DigitsLess(n: nat, m: nat, w: nat, x: string, y: string)
    requires n < m < Pow10(w)
    ensures LexLess(Digits(n, w) + x, Digits(m, w) + y)
  {
    var p, q := n / 10, m / 10;
    var c, d := DigitChar(n % 10), DigitChar(m % 10);
    assert Digits(n, w) + x == Digits(p, w - 1) + ([c] + x);
    assert Digits(m, w) + y == Digits(q, w - 1) + ([d] + y);
    if p < q {
      DigitsLess(p, q, w - 1, [c] + x, [d] + y);
    } else {
      assert Digits(p, w - 1) + ([c] + x) == Digits(p, w - 1) + [c] + x;
      assert Digits(q, w - 1) + ([d] + y) == Digits(p, w - 1) + [d] + y;
      LexLessAt(Digits(p, w - 1), c, d, x, y);
    }
  }

  /** File names that start with ISO dates sort in date order: an earlier
      date comes first whatever follows it. */
  lemma IsoBefore(a: Date, b: Date, x: string, y: string)
    requires ValidDate(a) && ValidDate(b)
    ensures Before(a, b) ==> LexLess(FormatIsoDate(a) + x, FormatIsoDate(b) + y)
  {
    if !Before(a, b) {
    } else if a.year < b.year {
      IsoBeforeYear(a, b, x, y);
    } else if a.month < b.month {
      IsoBeforeMonth(a, b, x, y);
    } else {
      IsoBeforeDay(a, b, x, y);
    }
  }

  /** The other way round: of two names that start with ISO dates, the one
      that sorts first has the date no later than the other's. */
  lemma IsoOrder(a: Date, b: Date, x: string, y: string)
    requires ValidDate(a) && ValidDate(b)
    ensures LexLe(FormatIsoDate(a) + x, FormatIsoDate(b) + y) ==> Ordinal(a) <= Ordinal(b)
  {
    var s, t := FormatIsoDate(a) + x, FormatIsoDate(b) + y;
    if LexLe(s, t) {
      IsoBefore(b, a, y, x);
      LexLessIrreflexive(s);
      if s != t {
        LexLessAsymmetric(s, t);
      }
      OrdinalNotBefore(b, a);
    }
  }

  lemma IsoBeforeYear(a: Date, b: Date, x: string, y: string)
    requires a.year < b.year <= MaxYear
    ensures LexLess(FormatIsoDate(a) + x, FormatIsoDate(b) + y)
  {
    var ra := "-" + Digits(a.month, 2) + "-" + Digits(a.day, 2) + x;
    var rb := "-" + Digits(b.month, 2) + "-" + Digits(b.day, 2) + y;
    assert FormatIsoDate(a) + x == Digits(a.year, 4) + ra;
    assert FormatIsoDate(b) + y == Digits(b.year, 4) + rb;
    DigitsLess(a.year, b.year, 4, ra, rb);
  }

  lemma IsoBeforeMonth(a: Date, b: Date, x: string, y: string)
    requires a.year == b.year && a.month < b.month <= 12
    ensures LexLess(FormatIsoDate(a) + x, FormatIsoDate(b) + y)
  {
    var p := Digits(a.year, 4) + "-";
    var ra := "-" + Digits(a.day, 2) + x;
    var rb := "-" + Digits(b.day, 2) + y;
    assert FormatIsoDate(a) + x == p + (Digits(a.month, 2) + ra);
    assert FormatIsoDate(b) + y == p + (Digits(b.month, 2) + rb);
    DigitsLess(a.month, b.month, 2, ra, rb);
    LexLessPrefix(p, Digits(a.month, 2) + ra, Digits(b.month, 2) + rb);
  }

  lemma IsoBeforeDay(a: Date, b: Date, x: string, y: string)
    requires a.year == b.year && a.month == b.month && a.day < b.day <= 31
    ensures LexLess(FormatIsoDate(a) + x, FormatIsoDate(b) + y)
  {
    var p := Digits(a.year, 4) + "-" + Digits(a.month, 2) + "-";
    assert FormatIsoDate(a) + x == p + (Digits(a.day, 2) + x);
    assert FormatIsoDate(b) + y == p + (Digits(b.day, 2) + y);
    DigitsLess(a.day, b.day, 2, x, y);
    LexLessPrefix(p, Digits(a.day, 2) + x, Digits(b.day, 2) + y);
  }
}
