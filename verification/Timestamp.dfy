/** Stored timestamps: the order of their text is the order of time. */
module Timestamp {

  import opened Text
  import opened Wrappers

  // ---- The calendar ----

  /** A date and a time of day in UTC. */
  datatype DateTime = DateTime(year: nat, month: nat, day: nat, hour: nat, minute: nat, second: nat, nanos: nat)

  predicate Leap(year: nat) { year % 4 == 0 && (year % 100 != 0 || year % 400 == 0) }

  function MonthLength(year: nat, month: nat): nat {
    if month == 2 then (if Leap(year) then 29 else 28)
    else if month == 4 || month == 6 || month == 9 || month == 11 then 30
    else 31
  }

  /** The twelve months of the Gregorian calendar. */
  lemma MonthsAreGregorian(year: nat, month: nat)
    requires 1 <= month <= 12
    ensures var february := if Leap(year) then 29 else 28;
      MonthLength(year, month) == [31, february, 31, 30, 31, 30, 31, 31, 30, 31, 30, 31][month - 1]
  {}

  predicate Valid(t: DateTime) {
    && t.year <= 9999
    && 1 <= t.month <= 12
    && 1 <= t.day <= MonthLength(t.year, t.month)
    && t.hour < 24 && t.minute < 60 && t.second < 60 && t.nanos < 1_000_000_000
  }

  function DaysBeforeYear(year: nat): nat {
    365 * year + (year + 3) / 4 - (year + 99) / 100 + (year + 399) / 400
  }

  function DaysBeforeMonth(year: nat, month: nat): nat {
    if month <= 1 then 0 else DaysBeforeMonth(year, month - 1) + MonthLength(year, month - 1)
  }

  function DayNumber(year: nat, month: nat, day: nat): int {
    DaysBeforeYear(year) + DaysBeforeMonth(year, month) + day - 1
  }

  /** Nanoseconds since the start of the year 0. */
  function Nanos(t: DateTime): int {
    (((DayNumber(t.year, t.month, t.day) * 24 + t.hour) * 60 + t.minute) * 60 + t.second) * 1_000_000_000 + t.nanos
  }

  const END_OF_YEARS: int := DaysBeforeYear(10000) * 24 * 60 * 60 * 1_000_000_000

  lemma Fours(year: nat)
    ensures (year + 4) / 4 == (year + 3) / 4 + if year % 4 == 0 then 1 else 0
  {
  }

  lemma Centuries(year: nat)
    ensures (year + 100) / 100 == (year + 99) / 100 + if year % 100 == 0 then 1 else 0
  {
  }

  lemma FourCenturies(year: nat)
    ensures (year + 400) / 400 == (year + 399) / 400 + if year % 400 == 0 then 1 else 0
  {
  }

  lemma LeapRulesNest(year: nat)
    ensures year % 100 == 0 ==> year % 4 == 0
    ensures year % 400 == 0 ==> year % 100 == 0
  {
    if year % 100 == 0 { assert year == 4 * (25 * (year / 100)); }
    if year % 400 == 0 { assert year == 100 * (4 * (year / 400)); }
  }

  lemma YearAddsItsDays(year: nat)
    ensures DaysBeforeYear(year + 1) == DaysBeforeYear(year) + if Leap(year) then 366 else 365
  {
    Fours(year);
    Centuries(year);
    FourCenturies(year);
    LeapRulesNest(year);
    assert (year + 1) + 3 == year + 4 && (year + 1) + 99 == year + 100 && (year + 1) + 399 == year + 400;
  }

  lemma MonthsOfAYear(year: nat)
    ensures DaysBeforeMonth(year, 13) == MonthLength(year, 2) + 337
  {
    assert DaysBeforeMonth(year, 2) == 31;
    assert DaysBeforeMonth(year, 3) == MonthLength(year, 2) + 31;
    assert DaysBeforeMonth(year, 5) == MonthLength(year, 2) + 92;
    assert DaysBeforeMonth(year, 7) == MonthLength(year, 2) + 153;
    assert DaysBeforeMonth(year, 9) == MonthLength(year, 2) + 215;
    assert DaysBeforeMonth(year, 11) == MonthLength(year, 2) + 276;
  }

  /** A year is as long as its twelve months. */
  lemma YearIsItsMonths(year: nat)
    ensures DaysBeforeYear(year) + DaysBeforeMonth(year, 13) == DaysBeforeYear(year + 1)
  {
    YearAddsItsDays(year);
    MonthsOfAYear(year);
  }

  lemma {:induction false} YearsInOrder(early: nat, late: nat)
    requires early < late
    ensures DaysBeforeYear(early + 1) <= DaysBeforeYear(late)
  {
    if early + 1 < late {
      YearsInOrder(early, late - 1);
      YearIsItsMonths(late - 1);
    }
  }

  lemma {:induction false} MonthsInOrder(year: nat, early: nat, late: nat)
    requires 1 <= early < late
    ensures DaysBeforeMonth(year, early + 1) <= DaysBeforeMonth(year, late)
  {
    if early + 1 < late { MonthsInOrder(year, early, late - 1); }
  }

  /** The calendar's order: the first field that differs decides. */
  predicate Earlier(a: DateTime, b: DateTime) {
    if a.year != b.year then a.year < b.year
    else if a.month != b.month then a.month < b.month
    else if a.day != b.day then a.day < b.day
    else if a.hour != b.hour then a.hour < b.hour
    else if a.minute != b.minute then a.minute < b.minute
    else if a.second != b.second then a.second < b.second
    else a.nanos < b.nanos
  }

  lemma EarlierDay(a: DateTime, b: DateTime)
    requires Valid(a) && Valid(b) && Earlier(a, b)
    requires (a.year, a.month, a.day) != (b.year, b.month, b.day)
    ensures DayNumber(a.year, a.month, a.day) < DayNumber(b.year, b.month, b.day)
  {
    if a.year != b.year {
      YearsInOrder(a.year, b.year);
      YearIsItsMonths(a.year);
      MonthsInOrder(a.year, a.month, 13);
    } else if a.month != b.month {
      MonthsInOrder(a.year, a.month, b.month);
    }
  }

  lemma EarlierIsLess(a: DateTime, b: DateTime)
    requires Valid(a) && Valid(b) && Earlier(a, b)
    ensures Nanos(a) < Nanos(b)
  {
    if (a.year, a.month, a.day) != (b.year, b.month, b.day) {
      EarlierDay(a, b);
    }
  }

  lemma {:induction false} FindYear(day: nat, bound: nat) returns (year: nat)
    requires day < DaysBeforeYear(bound)
    ensures year < bound && DaysBeforeYear(year) <= day < DaysBeforeYear(year + 1)
  {
    if DaysBeforeYear(bound - 1) <= day {
      year := bound - 1;
    } else {
      year := FindYear(day, bound - 1);
    }
  }

  lemma {:induction false} FindMonth(year: nat, day: nat, bound: nat) returns (month: nat)
    requires day < DaysBeforeMonth(year, bound)
    ensures 1 <= month < bound && DaysBeforeMonth(year, month) <= day < DaysBeforeMonth(year, month + 1)
  {
    if DaysBeforeMonth(year, bound - 1) <= day {
      month := bound - 1;
    } else {
      month := FindMonth(year, day, bound - 1);
    }
  }

  /** Every nanosecond of the years 0 to 9999 has a date and a time of day. */
  lemma EveryInstantHasADate(n: nat) returns (t: DateTime)
    requires n < END_OF_YEARS
    ensures Valid(t) && Nanos(t) == n
  {
    var seconds := n / 1_000_000_000;
    var minutes := seconds / 60;
    var hours := minutes / 60;
    var days := hours / 24;
    var year, month, day := DateOf(days);
    t := DateTime(year, month, day, hours % 24, minutes % 60, seconds % 60, n % 1_000_000_000);
  }

  lemma DateOf(days: nat) returns (year: nat, month: nat, day: nat)
    requires days < DaysBeforeYear(10000)
    ensures year <= 9999 && 1 <= month <= 12 && 1 <= day <= MonthLength(year, month)
    ensures DayNumber(year, month, day) == days
  {
    year := FindYear(days, 10000);
    YearIsItsMonths(year);
    month := FindMonth(year, days - DaysBeforeYear(year), 13);
    day := days - DaysBeforeYear(year) - DaysBeforeMonth(year, month) + 1;
  }

  // ---- Text ----

  /** `s` and `t` agree before `i`, where `s` is smaller. */
  predicate SmallerAt(s: string, t: string, i: nat) { i < |s| && i < |t| && s[..i] == t[..i] && s[i] < t[i] }

  lemma {:induction false} SmallerIsLess(s: string, t: string, i: nat)
    requires SmallerAt(s, t, i)
    ensures Less(s, t)
  {
    if i > 0 {
      assert s[0] == s[..i][0] && t[0] == t[..i][0];
      assert s[1..][..i - 1] == s[..i][1..] && t[1..][..i - 1] == t[..i][1..];
      SmallerIsLess(s[1..], t[1..], i - 1);
    }
  }

  lemma SmallerAfter(p: string, s: string, t: string, i: nat)
    requires SmallerAt(s, t, i)
    ensures SmallerAt(p + s, p + t, |p| + i)
  {
    assert (p + s)[..|p| + i] == p + s[..i] && (p + t)[..|p| + i] == p + t[..i];
  }

  lemma SmallerBefore(s: string, t: string, x: string, y: string, i: nat)
    requires SmallerAt(s, t, i)
    ensures SmallerAt(s + x, t + y, i)
  {
    assert (s + x)[..i] == s[..i] && (t + y)[..i] == t[..i];
  }

  function Digit(n: nat): (c: char)
    requires n < 10
    ensures '0' <= c <= '9' && (c - '0') as nat == n
  {
    '0' + n as char
  }

  predicate IsDigits(s: string) { forall i :: 0 <= i < |s| ==> '0' <= s[i] <= '9' }

  /** The last `width` decimal digits of a number. */
  function Pad(n: nat, width: nat): (s: string)
    ensures |s| == width && IsDigits(s)
  {
    if width == 0 then "" else Pad(n / 10, width - 1) + [Digit(n % 10)]
  }

  function Value(s: string): nat
    requires IsDigits(s)
  {
    if s == "" then 0 else 10 * Value(s[..|s| - 1]) + (s[|s| - 1] - '0') as nat
  }

  function Pow10(width: nat): nat { if width == 0 then 1 else 10 * Pow10(width - 1) }

  lemma {:induction false} PadValue(n: nat, width: nat)
    requires n < Pow10(width)
    ensures Value(Pad(n, width)) == n
  {
    if width > 0 { PadValue(n / 10, width - 1); }
  }

  /** Digits of equal width compare as their numbers do. */
  lemma {:induction false} PadOrder(m: nat, n: nat, width: nat) returns (i: nat)
    requires m < n < Pow10(width)
    ensures SmallerAt(Pad(m, width), Pad(n, width), i)
  {
    if m / 10 == n / 10 {
      i := width - 1;
    } else {
      i := PadOrder(m / 10, n / 10, width - 1);
      SmallerBefore(Pad(m / 10, width - 1), Pad(n / 10, width - 1), [Digit(m % 10)], [Digit(n % 10)], i);
    }
  }

  // ---- Date and time to the second ----

  datatype Field = Field(width: nat, separator: string)

  const FORMAT: seq<Field> :=
    [Field(4, "-"), Field(2, "-"), Field(2, "T"), Field(2, ":"), Field(2, ":"), Field(2, "")]

  function Values(t: DateTime): seq<nat> { [t.year, t.month, t.day, t.hour, t.minute, t.second] }

  predicate Fits(values: seq<nat>, format: seq<Field>) {
    |values| == |format| && forall i :: 0 <= i < |values| ==> values[i] < Pow10(format[i].width)
  }

  function Join(values: seq<nat>, format: seq<Field>, rest: string): string
    requires |values| == |format|
  {
    if values == [] then rest
    else Pad(values[0], format[0].width) + (format[0].separator + Join(values[1..], format[1..], rest))
  }

  lemma {:induction false} JoinOrder(v: seq<nat>, w: seq<nat>, format: seq<Field>, x: string, y: string, k: nat)
    returns (i: nat)
    requires Fits(v, format) && Fits(w, format)
    requires k < |v| && v[..k] == w[..k] && v[k] < w[k]
    ensures SmallerAt(Join(v, format, x), Join(w, format, y), i)
  {
    var width, separator := format[0].width, format[0].separator;
    var s, t := Join(v[1..], format[1..], x), Join(w[1..], format[1..], y);
    if k == 0 {
      i := PadOrder(v[0], w[0], width);
      SmallerBefore(Pad(v[0], width), Pad(w[0], width), separator + s, separator + t, i);
    } else {
      assert v[0] == v[..k][0] == w[..k][0] == w[0];
      assert v[1..][..k - 1] == v[..k][1..] && w[1..][..k - 1] == w[..k][1..];
      i := JoinOrder(v[1..], w[1..], format[1..], x, y, k - 1);
      SmallerAfter(separator, s, t, i);
      i := |separator| + i;
      SmallerAfter(Pad(v[0], width), separator + s, separator + t, i);
      i := width + i;
    }
  }

  lemma SameAfter(values: seq<nat>, format: seq<Field>, x: string, y: string, i: nat) returns (j: nat)
    requires |values| == |format| && SmallerAt(x, y, i)
    ensures SmallerAt(Join(values, format, x), Join(values, format, y), j)
    decreases |values|
  {
    if values == [] {
      j := i;
    } else {
      j := SameAfter(values[1..], format[1..], x, y, i);
      var s, t := Join(values[1..], format[1..], x), Join(values[1..], format[1..], y);
      SmallerAfter(format[0].separator, s, t, j);
      SmallerAfter(Pad(values[0], format[0].width), format[0].separator + s, format[0].separator + t,
                   |format[0].separator| + j);
      j := format[0].width + (|format[0].separator| + j);
    }
  }

  // ---- Fraction and offset ----

  const UTC: string := "+00:00"

  /** No fraction, or the fewest of 3, 6 or 9 digits that lose nothing. */
  function FractionDigits(nanos: nat): string {
    if nanos == 0 then ""
    else if nanos % 1_000_000 == 0 then Pad(nanos / 1_000_000, 3)
    else if nanos % 1_000 == 0 then Pad(nanos / 1_000, 6)
    else Pad(nanos, 9)
  }

  function Ending(digits: string): string { (if digits == "" then "" else "." + digits) + UTC }

  predicate AllZero(s: string) { forall i :: 0 <= i < |s| ==> s[i] == '0' }

  lemma PadTen(n: nat, width: nat)
    ensures Pad(10 * n, width + 1) == Pad(n, width) + "0"
  {
    assert 10 * n / 10 == n && 10 * n % 10 == 0;
  }

  lemma PadThousands(n: nat, width: nat)
    ensures Pad(1000 * n, width + 3) == Pad(n, width) + "000"
  {
    assert Pad(10 * (10 * (10 * n)), width + 3) == Pad(n, width) + "0" + "0" + "0" by {
      assert Pad(10 * n, width + 1) == Pad(n, width) + "0" by { PadTen(n, width); }
      assert Pad(10 * (10 * n), width + 2) == Pad(10 * n, width + 1) + "0" by { PadTen(10 * n, width + 1); }
      PadTen(10 * (10 * n), width + 2);
    }
    ThreeZeros(Pad(n, width));
    assert 10 * (10 * (10 * n)) == 1000 * n;
  }

  lemma ThreeZeros(s: string)
    ensures s + "0" + "0" + "0" == s + "000"
  {}

  lemma TrimmedMillions(nanos: nat)
    requires nanos % 1_000_000 == 0
    ensures Pad(nanos, 9) == Pad(nanos / 1_000_000, 3) + "000000"
  {
    PadMillion(nanos / 1_000_000);
  }

  lemma TrimmedThousands(nanos: nat)
    requires nanos % 1000 == 0
    ensures Pad(nanos, 9) == Pad(nanos / 1000, 6) + "000"
  {
    PadThousands(nanos / 1000, 6);
  }

  /** The printed digits are the nine digits without some zeros at their end. */
  lemma FractionIsTrimmed(nanos: nat) returns (zeros: string)
    requires nanos < 1_000_000_000
    ensures Pad(nanos, 9) == FractionDigits(nanos) + zeros && AllZero(zeros)
  {
    zeros := "";
    if nanos == 0 {
      zeros := Pad(0, 9);
      PadZero(9);
    } else if nanos % 1_000_000 == 0 {
      TrimmedMillions(nanos);
      zeros := "000000";
    } else if nanos % 1000 == 0 {
      TrimmedThousands(nanos);
      zeros := "000";
    }
  }

  lemma PadMillion(n: nat)
    ensures Pad(1_000_000 * n, 9) == Pad(n, 3) + "000000"
  {
    PadThousands(1000 * n, 6);
    PadThousands(n, 3);
    assert 1_000_000 * n == 1000 * (1000 * n);
  }

  lemma {:induction false} PadZero(width: nat)
    ensures AllZero(Pad(0, width))
  {
    if width > 0 { PadZero(width - 1); }
  }

  /** A shorter fraction ends with '+', which is before '.' and before every digit. */
  lemma EndingOrder(d: string, e: string, x: string, y: string, i: nat) returns (j: nat)
    requires IsDigits(d) && IsDigits(e) && AllZero(x) && AllZero(y)
    requires SmallerAt(d + x, e + y, i)
    ensures SmallerAt(Ending(d), Ending(e), j)
  {
    assert forall k :: 0 <= k < i ==> (d + x)[k] == (d + x)[..i][k] == (e + y)[..i][k] == (e + y)[k];
    assert (d + x)[i] >= '0';
    assert i < |e|;
    forall k | 0 <= k < i && k < |d| ensures d[k] == e[k] {
      assert (d + x)[k] == (e + y)[k];
    }
    if d == "" {
      j := 0;
    } else if i < |d| {
      j := i + 1;
      assert Ending(d)[..j] == "." + d[..i] && Ending(e)[..j] == "." + e[..i];
    } else {
      j := |d| + 1;
      assert d == e[..|d|];
      assert Ending(d)[..j] == "." + d && Ending(e)[..j] == "." + e[..|d|];
      assert Ending(d)[j] == UTC[0] && Ending(e)[j] == e[|d|];
    }
  }

  lemma FractionOrder(m: nat, n: nat) returns (j: nat)
    requires m < n < 1_000_000_000
    ensures SmallerAt(Ending(FractionDigits(m)), Ending(FractionDigits(n)), j)
  {
    assert Pow10(9) == 1_000_000_000;
    var i := PadOrder(m, n, 9);
    var x := FractionIsTrimmed(m);
    var y := FractionIsTrimmed(n);
    j := EndingOrder(FractionDigits(m), FractionDigits(n), x, y, i);
  }

  // ---- The encoding ----

  function EncodeTime(t: DateTime): string { Join(Values(t), FORMAT, Ending(FractionDigits(t.nanos))) }

  lemma ValuesFit(t: DateTime)
    requires Valid(t)
    ensures Fits(Values(t), FORMAT)
  {
    assert Pow10(2) == 100 && Pow10(4) == 10000;
  }

  lemma EarlierTextIsLess(a: DateTime, b: DateTime)
    requires Valid(a) && Valid(b) && Earlier(a, b)
    ensures Less(EncodeTime(a), EncodeTime(b))
  {
    ValuesFit(a);
    ValuesFit(b);
    var v, w := Values(a), Values(b);
    var x, y := Ending(FractionDigits(a.nanos)), Ending(FractionDigits(b.nanos));
    var i: nat;
    if v == w {
      i := FractionOrder(a.nanos, b.nanos);
      i := SameAfter(v, FORMAT, x, y, i);
    } else {
      var k := FirstField(a, b);
      i := JoinOrder(v, w, FORMAT, x, y, k);
    }
    SmallerIsLess(EncodeTime(a), EncodeTime(b), i);
  }

  lemma FirstField(a: DateTime, b: DateTime) returns (k: nat)
    requires Earlier(a, b) && Values(a) != Values(b)
    ensures k < 6 && Values(a)[..k] == Values(b)[..k] && Values(a)[k] < Values(b)[k]
  {
    k := if a.year != b.year then 0 else if a.month != b.month then 1 else if a.day != b.day then 2
         else if a.hour != b.hour then 3 else if a.minute != b.minute then 4 else 5;
  }

  /** The order of the stored text is the order of time, whatever the lengths of the fractions. */
  lemma TextOrderIsTimeOrder(a: DateTime, b: DateTime)
    requires Valid(a) && Valid(b)
    ensures Less(EncodeTime(a), EncodeTime(b)) <==> Nanos(a) < Nanos(b)
    ensures EncodeTime(a) == EncodeTime(b) <==> Nanos(a) == Nanos(b)
  {
    if Earlier(a, b) {
      EarlierIsLess(a, b);
      EarlierTextIsLess(a, b);
      LessIsAsymmetric(EncodeTime(a), EncodeTime(b));
    } else if Earlier(b, a) {
      EarlierIsLess(b, a);
      EarlierTextIsLess(b, a);
      LessIsAsymmetric(EncodeTime(b), EncodeTime(a));
    } else {
      assert a == b;
      if Less(EncodeTime(a), EncodeTime(b)) { LessIsAsymmetric(EncodeTime(a), EncodeTime(b)); }
    }
  }

  // ---- Decoding ----

  function ParseFields(s: string, format: seq<Field>): Option<(seq<nat>, string)>
    decreases |format|
  {
    if format == [] then Some(([], s)) else
    var w, sep := format[0].width, format[0].separator;
    if |s| < w + |sep| || !IsDigits(s[..w]) || s[w..w + |sep|] != sep then None else
    var rest := ParseFields(s[w + |sep|..], format[1..]);
    if rest.None? then None else Some(([Value(s[..w])] + rest.value.0, rest.value.1))
  }

  lemma {:induction false} FieldsRoundTrip(values: seq<nat>, format: seq<Field>, rest: string)
    requires Fits(values, format)
    ensures ParseFields(Join(values, format, rest), format) == Some((values, rest))
  {
    if values != [] {
      FieldsRoundTrip(values[1..], format[1..], rest);
      PadValue(values[0], format[0].width);
      ParseOne(Pad(values[0], format[0].width), Join(values[1..], format[1..], rest), format);
      assert values == [values[0]] + values[1..];
    }
  }

  lemma Slices(a: string, b: string, c: string)
    ensures var s := a + (b + c);
      s[..|a|] == a && s[|a|..|a| + |b|] == b && s[|a| + |b|..] == c
  {}

  lemma ParseOne(digits: string, tail: string, format: seq<Field>)
    requires format != [] && IsDigits(digits) && |digits| == format[0].width
    requires ParseFields(tail, format[1..]).Some?
    ensures ParseFields(digits + (format[0].separator + tail), format)
         == Some(([Value(digits)] + ParseFields(tail, format[1..]).value.0, ParseFields(tail, format[1..]).value.1))
  {
    Slices(digits, format[0].separator, tail);
  }

  function DigitCount(s: string): (n: nat)
    ensures n <= |s| && IsDigits(s[..n]) && (n < |s| ==> !('0' <= s[n] <= '9'))
  {
    if s == "" || !('0' <= s[0] <= '9') then 0 else
    var n := 1 + DigitCount(s[1..]);
    assert s[..n] == [s[0]] + s[1..][..n - 1];
    n
  }

  /** The first nine fraction digits; missing ones are zeros. */
  function Nine(digits: string): (r: string)
    requires IsDigits(digits)
    ensures |r| == 9 && IsDigits(r)
    decreases 9 - |digits|
  {
    if |digits| >= 9 then digits[..9] else Nine(digits + "0")
  }

  function FractionNanos(digits: string): nat
    requires IsDigits(digits)
  {
    Value(Nine(digits))
  }

  /** Minutes east of UTC. */
  function ParseOffset(s: string): Option<int> {
    if s == "Z" || s == "z" then Some(0)
    else if |s| != 6 || s[0] !in "+-" || !IsDigits(s[1..3]) || s[3] != ':' || !IsDigits(s[4..]) then None
    else
      var hours, minutes := Value(s[1..3]), Value(s[4..]);
      if hours > 23 || minutes > 59 then None
      else Some(if s[0] == '-' then -(hours * 60 + minutes) else hours * 60 + minutes)
  }

  function ParseEnding(s: string): Option<(nat, int)> {
    var hasFraction := s != "" && s[0] == '.';
    var count := if hasFraction then DigitCount(s[1..]) else 0;
    if hasFraction && count == 0 then None else
    var nanos := if hasFraction then FractionNanos(s[1..][..count]) else 0;
    var offset := ParseOffset(if hasFraction then s[1 + count..] else s);
    if offset.None? then None else Some((nanos, offset.value))
  }

  function InstantOf(v: seq<nat>, ending: (nat, int)): Option<int> {
    if |v| != 6 then None else
    var t := DateTime(v[0], v[1], v[2], v[3], v[4], v[5], ending.0);
    if !Valid(t) then None else Some(Nanos(t) - ending.1 * 60 * 1_000_000_000)
  }

  /** The instant that a text names, in nanoseconds since the start of the year 0 in UTC. */
  function DecodeTime(s: string): Option<int> {
    var fields := ParseFields(s, FORMAT);
    if fields.None? then None else
    var ending := ParseEnding(fields.value.1);
    if ending.None? then None else InstantOf(fields.value.0, ending.value)
  }

  /** Zeros left off the end of nine digits are put back. */
  lemma {:induction false} ZerosPutBack(digits: string, zeros: string)
    requires |digits| + |zeros| == 9 && IsDigits(digits) && AllZero(zeros)
    ensures Nine(digits) == digits + zeros
    decreases |zeros|
  {
    if zeros == "" {
      assert digits[..9] == digits + zeros;
    } else {
      ZerosPutBack(digits + "0", zeros[1..]);
      assert digits + "0" + zeros[1..] == digits + zeros;
    }
  }

  lemma FractionRoundTrip(nanos: nat)
    requires nanos < 1_000_000_000
    ensures IsDigits(FractionDigits(nanos)) && FractionNanos(FractionDigits(nanos)) == nanos
  {
    var zeros := FractionIsTrimmed(nanos);
    ZerosPutBack(FractionDigits(nanos), zeros);
    assert Pow10(9) == 1_000_000_000;
    PadValue(nanos, 9);
  }

  lemma {:induction false} DigitCountOf(digits: string, rest: string)
    requires IsDigits(digits) && rest != "" && !('0' <= rest[0] <= '9')
    ensures DigitCount(digits + rest) == |digits|
  {
    if digits == "" {
      assert digits + rest == rest;
    } else {
      assert (digits + rest)[1..] == digits[1..] + rest;
      DigitCountOf(digits[1..], rest);
    }
  }

  lemma UtcIsNoOffset()
    ensures ParseOffset(UTC) == Some(0)
  {
    assert UTC[1..3] == UTC[4..] == Pad(0, 2);
    PadValue(0, 2);
  }

  lemma FractionIsParsed(d: string)
    requires IsDigits(d) && d != ""
    ensures ParseEnding("." + d + UTC) == Some((FractionNanos(d), 0))
  {
    var s := "." + d + UTC;
    assert s[0] == '.' && s[1..] == d + UTC;
    DigitCountOf(d, UTC);
    assert s[1 + |d|..] == UTC && (d + UTC)[..|d|] == d;
    UtcIsNoOffset();
  }

  lemma EndingRoundTrip(nanos: nat)
    requires nanos < 1_000_000_000
    ensures ParseEnding(Ending(FractionDigits(nanos))) == Some((nanos, 0))
  {
    var d := FractionDigits(nanos);
    FractionRoundTrip(nanos);
    if d == "" {
      UtcIsNoOffset();
      assert Ending(d) == UTC;
    } else {
      FractionIsParsed(d);
    }
  }

  lemma DecodeParts(s: string, values: seq<nat>, rest: string, ending: (nat, int))
    requires ParseFields(s, FORMAT) == Some((values, rest)) && ParseEnding(rest) == Some(ending)
    ensures DecodeTime(s) == InstantOf(values, ending)
  {
  }

  lemma InstantOfValues(t: DateTime)
    requires Valid(t)
    ensures InstantOf(Values(t), (t.nanos, 0)) == Some(Nanos(t))
  {
    var v := Values(t);
    assert t == DateTime(v[0], v[1], v[2], v[3], v[4], v[5], t.nanos);
  }

  /** Decoding inverts encoding, for every instant of the years 0 to 9999. */
  lemma DecodeInvertsEncode(t: DateTime)
    requires Valid(t)
    ensures DecodeTime(EncodeTime(t)) == Some(Nanos(t))
  {
    ValuesFit(t);
    FieldsRoundTrip(Values(t), FORMAT, Ending(FractionDigits(t.nanos)));
    EndingRoundTrip(t.nanos);
    DecodeParts(EncodeTime(t), Values(t), Ending(FractionDigits(t.nanos)), (t.nanos, 0));
    InstantOfValues(t);
  }

  // ---- The form of the text ----

  lemma JoinOne(v: nat, values: seq<nat>, f: Field, format: seq<Field>, rest: string)
    requires |values| == |format|
    ensures Join([v] + values, [f] + format, rest) == Pad(v, f.width) + (f.separator + Join(values, format, rest))
  {
    assert ([v] + values)[1..] == values && ([f] + format)[1..] == format;
  }

  /** The fields in their order, with 4 digits for the year and 2 for the others. */
  lemma TextLayout(t: DateTime, rest: string)
    ensures Join(Values(t), FORMAT, rest) == Pad(t.year, 4) + ("-" + (Pad(t.month, 2) + ("-" + DayAndTime(t, rest))))
  {
    var dayOn := [t.day, t.hour, t.minute, t.second];
    var format := [Field(2, "T"), Field(2, ":"), Field(2, ":"), Field(2, "")];
    assert Values(t) == [t.year] + ([t.month] + dayOn) && FORMAT == [Field(4, "-")] + ([Field(2, "-")] + format);
    JoinOne(t.year, [t.month] + dayOn, Field(4, "-"), [Field(2, "-")] + format, rest);
    JoinOne(t.month, dayOn, Field(2, "-"), format, rest);
    DayLayout(t, rest);
  }

  function DayAndTime(t: DateTime, rest: string): string {
    Pad(t.day, 2) + ("T" + (Pad(t.hour, 2) + (":" + (Pad(t.minute, 2) + (":" + (Pad(t.second, 2) + rest))))))
  }

  lemma DayLayout(t: DateTime, rest: string)
    ensures Join([t.day, t.hour, t.minute, t.second], [Field(2, "T"), Field(2, ":"), Field(2, ":"), Field(2, "")], rest)
      == DayAndTime(t, rest)
  {
    var f, g := Field(2, ":"), Field(2, "");
    assert [t.day, t.hour, t.minute, t.second] == [t.day] + [t.hour, t.minute, t.second]
        && [Field(2, "T"), f, f, g] == [Field(2, "T")] + [f, f, g];
    JoinOne(t.day, [t.hour, t.minute, t.second], Field(2, "T"), [f, f, g], rest);
    assert [t.hour, t.minute, t.second] == [t.hour] + [t.minute, t.second] && [f, f, g] == [f] + [f, g];
    JoinOne(t.hour, [t.minute, t.second], f, [f, g], rest);
    assert [t.minute, t.second] == [t.minute] + [t.second] && [f, g] == [f] + [g];
    JoinOne(t.minute, [t.second], f, [g], rest);
    assert [t.second] == [t.second] + [] && [g] == [g] + [];
    JoinOne(t.second, [], g, [], rest);
    assert "" + rest == rest;
  }

  // ---- Other offsets ----

  function OffsetText(west: bool, hours: nat, minutes: nat): string {
    (if west then "-" else "+") + Pad(hours, 2) + ":" + Pad(minutes, 2)
  }

  lemma OffsetOf(s: string, hours: nat, minutes: nat)
    requires |s| == 6 && s[0] in "+-" && IsDigits(s[1..3]) && s[3] == ':' && IsDigits(s[4..])
    requires Value(s[1..3]) == hours && Value(s[4..]) == minutes
    ensures ParseOffset(s) == if hours > 23 || minutes > 59 then None
                              else Some(if s[0] == '-' then -60 * hours - minutes else 60 * hours + minutes)
  {}

  lemma OffsetIsParsed(west: bool, hours: nat, minutes: nat)
    requires hours < 100 && minutes < 100
    ensures ParseOffset(OffsetText(west, hours, minutes))
      == if hours < 24 && minutes < 60 then Some(if west then -60 * hours - minutes else 60 * hours + minutes) else None
  {
    var sign, h, m := if west then "-" else "+", Pad(hours, 2), Pad(minutes, 2);
    assert Pow10(2) == 100;
    PadValue(hours, 2);
    PadValue(minutes, 2);
    OffsetSlices(sign, h, m);
    OffsetOf(OffsetText(west, hours, minutes), hours, minutes);
  }

  lemma OffsetSlices(sign: string, h: string, m: string)
    requires |sign| == 1 && |h| == |m| == 2
    ensures var s := sign + h + ":" + m;
      |s| == 6 && s[0] == sign[0] && s[1..3] == h && s[3] == ':' && s[4..] == m
  {}

  lemma EndingIsParsed(nanos: nat, offset: string)
    requires nanos < 1_000_000_000 && offset != "" && offset[0] in "+-Zz"
    ensures var d := FractionDigits(nanos);
      ParseEnding((if d == "" then "" else "." + d) + offset)
        == if ParseOffset(offset).None? then None else Some((nanos, ParseOffset(offset).value))
  {
    var d := FractionDigits(nanos);
    FractionRoundTrip(nanos);
    if d != "" {
      var s := "." + d + offset;
      assert s[0] == '.' && s[1..] == d + offset;
      DigitCountOf(d, offset);
      assert s[1 + |d|..] == offset && (d + offset)[..|d|] == d;
    } else {
      assert "" + offset == offset;
    }
  }

  /** The text of `t` in some offset from UTC. */
  function TextWith(t: DateTime, offset: string): string {
    var d := FractionDigits(t.nanos);
    Join(Values(t), FORMAT, (if d == "" then "" else "." + d) + offset)
  }

  lemma DecodeRest(s: string, values: seq<nat>, rest: string)
    requires ParseFields(s, FORMAT) == Some((values, rest))
    ensures DecodeTime(s) == if ParseEnding(rest).None? then None else InstantOf(values, ParseEnding(rest).value)
  {}

  lemma InstantInOffset(t: DateTime, minutes: int)
    requires Valid(t)
    ensures InstantOf(Values(t), (t.nanos, minutes)) == Some(Nanos(t) - minutes * 60_000_000_000)
  {
    var v := Values(t);
    assert t == DateTime(v[0], v[1], v[2], v[3], v[4], v[5], t.nanos);
  }

  lemma DecodeWith(t: DateTime, offset: string)
    requires Valid(t) && offset != "" && offset[0] in "+-Zz"
    ensures DecodeTime(TextWith(t, offset))
      == if ParseOffset(offset).None? then None else InstantOf(Values(t), (t.nanos, ParseOffset(offset).value))
  {
    var d := FractionDigits(t.nanos);
    var rest := (if d == "" then "" else "." + d) + offset;
    ValuesFit(t);
    FieldsRoundTrip(Values(t), FORMAT, rest);
    DecodeRest(TextWith(t, offset), Values(t), rest);
    EndingIsParsed(t.nanos, offset);
  }

  lemma DecodeIn(t: DateTime, offset: string, minutes: int)
    requires Valid(t) && offset != "" && offset[0] in "+-Zz" && ParseOffset(offset) == Some(minutes)
    ensures DecodeTime(TextWith(t, offset)) == Some(Nanos(t) - minutes * 60_000_000_000)
  {
    DecodeWith(t, offset);
    InstantInOffset(t, minutes);
  }

  lemma RefusedOffset(t: DateTime, offset: string)
    requires Valid(t) && offset != "" && offset[0] in "+-Zz" && ParseOffset(offset).None?
    ensures DecodeTime(TextWith(t, offset)) == None
  {
    DecodeWith(t, offset);
  }

  /**
   A local time is read as the instant it names, so many minutes before the same
   time in UTC as it is east of it. Offsets of a day or more or with 60 minutes or
   more are refused.
   */
  lemma OffsetIsApplied(t: DateTime, west: bool, hours: nat, minutes: nat, offset: string, east: int)
    requires Valid(t) && hours < 100 && minutes < 100 && offset == OffsetText(west, hours, minutes)
    requires east == if west then -60 * hours - minutes else 60 * hours + minutes
    ensures hours < 24 && minutes < 60 ==> DecodeTime(TextWith(t, offset)) == Some(Nanos(t) - east * 60_000_000_000)
    ensures hours >= 24 || minutes >= 60 ==> DecodeTime(TextWith(t, offset)) == None
  {
    OffsetIsParsed(west, hours, minutes);
    if hours < 24 && minutes < 60 {
      DecodeIn(t, offset, east);
    } else {
      RefusedOffset(t, offset);
    }
  }

  /** `Z` is UTC, in either case. */
  lemma ZuluIsUtc(t: DateTime, offset: string)
    requires Valid(t) && offset in {"Z", "z"}
    ensures DecodeTime(TextWith(t, offset)) == Some(Nanos(t))
  {
    DecodeIn(t, offset, 0);
  }
}
