/**
 RFC 3339 whole-second UTC timestamps as the gate receipt reads them
 (scripts/gate-receipt.py). Decimal digits of any script are accepted where the
 patterns say so; `digit` gives the value of such a digit and -1 otherwise.
 */
module Timestamps {
  import opened Text

  ghost predicate DigitTable(digit: char -> int) {
    && (forall c :: -1 <= digit(c) <= 9)
    && (forall c :: '0' <= c <= '9' ==> digit(c) == c as int - '0' as int)
    && (forall c :: c < '0' || '9' < c < '\U{80}' ==> digit(c) == -1)
  }

  datatype Moment = Moment(year: int, month: int, day: int, hour: int, minute: int, second: int)

  /** Chronological order. */
  predicate NotAfter(a: Moment, b: Moment) {
    if a.year != b.year then a.year < b.year
    else if a.month != b.month then a.month < b.month
    else if a.day != b.day then a.day < b.day
    else if a.hour != b.hour then a.hour < b.hour
    else if a.minute != b.minute then a.minute < b.minute
    else a.second <= b.second
  }

  predicate In(c: char, lo: char, hi: char) { lo <= c <= hi }

  /** `dddd-dd-ddTdd:dd:ddZ` */
  predicate Shaped(digit: char -> int, s: string) {
    && |s| == 20
    && s[4] == '-' && s[7] == '-' && s[10] == 'T' && s[13] == ':' && s[16] == ':' && s[19] == 'Z'
    && (forall i :: 0 <= i < 19 && i !in {4, 7, 10, 13, 16} ==> digit(s[i]) >= 0)
  }

  /** The value of the `n` digits from index `i`. */
  function Field(digit: char -> int, s: string, i: nat, n: nat): int
    requires i + n <= |s|
  {
    if n == 0 then 0 else Field(digit, s, i, n - 1) * 10 + digit(s[i + n - 1])
  }

  function MomentOf(digit: char -> int, s: string): Moment
    requires Shaped(digit, s)
  {
    Moment(Field(digit, s, 0, 4), Field(digit, s, 5, 2), Field(digit, s, 8, 2),
           Field(digit, s, 11, 2), Field(digit, s, 14, 2), Field(digit, s, 17, 2))
  }

  predicate LeapYear(y: int) { y % 4 == 0 && (y % 100 != 0 || y % 400 == 0) }

  function DaysIn(year: int, month: int): int {
    if month == 2 then (if LeapYear(year) then 29 else 28)
    else if month in {4, 6, 9, 11} then 30 else 31
  }

  /** What the calendar parser accepts of a shaped string, field by field. */
  predicate FieldsAccepted(s: string)
    requires |s| == 20
  {
    && ((s[5] == '1' && In(s[6], '0', '2')) || (s[5] == '0' && In(s[6], '1', '9')))
    && ((s[8] == '3' && In(s[9], '0', '1')) || In(s[8], '1', '2') || (s[8] == '0' && In(s[9], '1', '9')))
    && ((s[11] == '2' && In(s[12], '0', '3')) || In(s[11], '0', '1'))
    && In(s[14], '0', '5')
    && In(s[17], '0', '5')
  }

  predicate Valid(digit: char -> int, s: string) {
    && Shaped(digit, s)
    && FieldsAccepted(s)
    && var m := MomentOf(digit, s);
       m.year >= 1 && m.day <= DaysIn(m.year, m.month)
  }

  predicate Ascii(s: string) {
    forall i :: 0 <= i < |s| ==> s[i] < '\U{80}'
  }

  // ----- string order and chronological order

  lemma LexStep(a: string, b: string, i: nat)
    requires i < |a| && i < |b|
    ensures LexLe(a[i..], b[i..]) <==>
            (a[i] < b[i] || (a[i] == b[i] && LexLe(a[i + 1..], b[i + 1..])))
  {
    assert a[i..][1..] == a[i + 1..] && b[i..][1..] == b[i + 1..];
  }

  /** Over ASCII digits, comparing a field as text is comparing its value. */
  lemma {:induction false} FieldOrder(digit: char -> int, a: string, b: string, i: nat, n: nat)
    requires DigitTable(digit) && i + n <= |a| && i + n <= |b|
    requires forall k :: i <= k < i + n ==> In(a[k], '0', '9') && In(b[k], '0', '9')
    ensures LexLe(a[i..], b[i..]) <==>
            || Field(digit, a, i, n) < Field(digit, b, i, n)
            || (Field(digit, a, i, n) == Field(digit, b, i, n) && LexLe(a[i + n..], b[i + n..]))
  {
    if n > 0 {
      FieldOrder(digit, a, b, i, n - 1);
      LexStep(a, b, i + n - 1);
    }
  }

  lemma AsciiDigits(digit: char -> int, s: string)
    requires DigitTable(digit) && Shaped(digit, s) && Ascii(s)
    ensures forall i :: 0 <= i < 19 && i !in {4, 7, 10, 13, 16} ==> In(s[i], '0', '9')
  {}

  /** The same, past the separator that follows the field. */
  lemma FieldThenSeparator(digit: char -> int, a: string, b: string, i: nat, n: nat)
    requires DigitTable(digit) && i + n < |a| && i + n < |b| && a[i + n] == b[i + n]
    requires forall k :: i <= k < i + n ==> In(a[k], '0', '9') && In(b[k], '0', '9')
    ensures LexLe(a[i..], b[i..]) <==>
            || Field(digit, a, i, n) < Field(digit, b, i, n)
            || (Field(digit, a, i, n) == Field(digit, b, i, n) && LexLe(a[i + n + 1..], b[i + n + 1..]))
  {
    FieldOrder(digit, a, b, i, n);
    LexStep(a, b, i + n);
  }

  /** On ASCII timestamps code-point order is chronological order. */
  lemma AsciiOrderIsChronological(digit: char -> int, a: string, b: string)
    requires DigitTable(digit)
    requires Shaped(digit, a) && Ascii(a) && Shaped(digit, b) && Ascii(b)
    ensures LexLe(a, b) <==> NotAfter(MomentOf(digit, a), MomentOf(digit, b))
  {
    AsciiDigits(digit, a);
    AsciiDigits(digit, b);
    var x, y := MomentOf(digit, a), MomentOf(digit, b);
    assert LexLe(a[17..], b[17..]) <==> x.second <= y.second by {
      FieldThenSeparator(digit, a, b, 17, 2);
    }
    assert LexLe(a[14..], b[14..]) <==>
           x.minute < y.minute || (x.minute == y.minute && LexLe(a[17..], b[17..])) by {
      FieldThenSeparator(digit, a, b, 14, 2);
    }
    assert LexLe(a[11..], b[11..]) <==>
           x.hour < y.hour || (x.hour == y.hour && LexLe(a[14..], b[14..])) by {
      FieldThenSeparator(digit, a, b, 11, 2);
    }
    assert LexLe(a[8..], b[8..]) <==>
           x.day < y.day || (x.day == y.day && LexLe(a[11..], b[11..])) by {
      FieldThenSeparator(digit, a, b, 8, 2);
    }
    assert LexLe(a[5..], b[5..]) <==>
           x.month < y.month || (x.month == y.month && LexLe(a[8..], b[8..])) by {
      FieldThenSeparator(digit, a, b, 5, 2);
    }
    assert LexLe(a[0..], b[0..]) <==>
           x.year < y.year || (x.year == y.year && LexLe(a[5..], b[5..])) by {
      FieldThenSeparator(digit, a, b, 0, 4);
    }
    assert a[0..] == a && b[0..] == b;
  }

  lemma TwoDigits(digit: char -> int, s: string, i: nat)
    requires i + 2 <= |s|
    ensures Field(digit, s, i, 2) == digit(s[i]) * 10 + digit(s[i + 1])
  {
    assert Field(digit, s, i, 1) == digit(s[i]);
  }

  lemma FourDigits(digit: char -> int, s: string, i: nat)
    requires i + 4 <= |s|
    ensures Field(digit, s, i, 4) ==
            digit(s[i]) * 1000 + digit(s[i + 1]) * 100 + digit(s[i + 2]) * 10 + digit(s[i + 3])
  {
    TwoDigits(digit, s, i);
    assert Field(digit, s, i, 3) == Field(digit, s, i, 2) * 10 + digit(s[i + 2]);
  }

  lemma NewYear(digit: char -> int, s: string)
    requires DigitTable(digit) && |s| == 20 && s[4..] == "-01-01T00:00:00Z"
    requires digit(s[0]) == 2 && digit(s[1]) == 0 && digit(s[2]) == 2 && digit(s[3]) == 4
    ensures Valid(digit, s) && MomentOf(digit, s) == Moment(2024, 1, 1, 0, 0, 0)
  {
    assert forall i :: 4 <= i < 20 ==> s[i] == s[4..][i - 4];
    FourDigits(digit, s, 0);
    TwoDigits(digit, s, 5);
    TwoDigits(digit, s, 8);
    TwoDigits(digit, s, 11);
    TwoDigits(digit, s, 14);
    TwoDigits(digit, s, 17);
  }

  /** With digits of another script the two orders disagree. */
  lemma OtherDigitsBreakTheOrder(digit: char -> int, started: string, ended: string)
    requires DigitTable(digit)
    requires digit('\U{0660}') == 0 && digit('\U{0662}') == 2 && digit('\U{0664}') == 4
    requires started == "\U{0662}\U{0660}\U{0662}\U{0664}" + "-01-01T00:00:00Z"
    requires ended == "2024" + "-01-01T00:00:00Z"
    ensures Valid(digit, started) && Valid(digit, ended)
    ensures MomentOf(digit, started) == MomentOf(digit, ended)
    ensures !LexLe(started, ended)
  {
    assert started[4..] == "-01-01T00:00:00Z" && ended[4..] == "-01-01T00:00:00Z";
    NewYear(digit, started);
    NewYear(digit, ended);
  }

  // ----- which timestamps are valid

  /** A date and time of the calendar. */
  predicate Real(m: Moment) {
    && 1 <= m.year <= 9999 && 0 <= m.hour < 24 && 0 <= m.minute < 60 && 0 <= m.second < 60 && 1 <= m.day
    && match m.month
       case 1 | 3 | 5 | 7 | 8 | 10 | 12 => m.day <= 31
       case 4 | 6 | 9 | 11 => m.day <= 30
       case 2 => m.day <= 28 || (m.day == 29 && m.year % 4 == 0 && (m.year % 100 == 0 ==> m.year % 400 == 0))
       case _ => false
  }

  function Digit(n: int): char
    requires 0 <= n <= 9
  {
    '0' + n as char
  }

  function Tens(n: int): char
    requires 0 <= n <= 99
  {
    Digit(n / 10)
  }

  function Ones(n: int): char
    requires 0 <= n <= 99
  {
    Digit(n % 10)
  }

  /** A moment as it is written. */
  function Stamp(m: Moment): string
    requires Real(m)
  {
    var c, y := m.year / 100, m.year % 100;
    [Tens(c), Ones(c), Tens(y), Ones(y), '-', Tens(m.month), Ones(m.month), '-', Tens(m.day), Ones(m.day), 'T',
     Tens(m.hour), Ones(m.hour), ':', Tens(m.minute), Ones(m.minute), ':', Tens(m.second), Ones(m.second), 'Z']
  }

  lemma DigitIs(digit: char -> int, n: int)
    requires DigitTable(digit) && 0 <= n <= 9
    ensures digit(Digit(n)) == n && In(Digit(n), '0', '9')
  {
  }

  lemma TwoIs(digit: char -> int, s: string, i: nat, n: int)
    requires DigitTable(digit) && 0 <= n <= 99 && i + 2 <= |s| && s[i] == Tens(n) && s[i + 1] == Ones(n)
    ensures Field(digit, s, i, 2) == n && In(s[i], '0', '9') && In(s[i + 1], '0', '9')
    ensures digit(s[i]) == n / 10 && digit(s[i + 1]) == n % 10
  {
    TwoDigits(digit, s, i);
    DigitIs(digit, n / 10);
    DigitIs(digit, n % 10);
  }

  lemma YearIs(digit: char -> int, s: string, century: int, year: int)
    requires DigitTable(digit) && 0 <= century <= 99 && 0 <= year <= 99 && 4 <= |s|
    requires s[0] == Tens(century) && s[1] == Ones(century) && s[2] == Tens(year) && s[3] == Ones(year)
    ensures Field(digit, s, 0, 4) == 100 * century + year
    ensures forall i :: 0 <= i < 4 ==> In(s[i], '0', '9')
  {
    TwoIs(digit, s, 0, century);
    TwoIs(digit, s, 2, year);
    FourDigits(digit, s, 0);
  }

  lemma DateReads(digit: char -> int, m: Moment, s: string)
    requires DigitTable(digit) && Real(m) && s == Stamp(m)
    ensures Field(digit, s, 0, 4) == m.year && Field(digit, s, 5, 2) == m.month && Field(digit, s, 8, 2) == m.day
    ensures forall i :: 0 <= i < 10 && i != 4 && i != 7 ==> In(s[i], '0', '9')
  {
    YearIs(digit, s, m.year / 100, m.year % 100);
    TwoIs(digit, s, 5, m.month);
    TwoIs(digit, s, 8, m.day);
  }

  lemma TimeReads(digit: char -> int, m: Moment, s: string)
    requires DigitTable(digit) && Real(m) && s == Stamp(m)
    ensures Field(digit, s, 11, 2) == m.hour && Field(digit, s, 14, 2) == m.minute && Field(digit, s, 17, 2) == m.second
    ensures forall i :: 11 <= i < 19 && i != 13 && i != 16 ==> In(s[i], '0', '9')
  {
    TwoIs(digit, s, 11, m.hour);
    TwoIs(digit, s, 14, m.minute);
    TwoIs(digit, s, 17, m.second);
  }

  /** A written moment is shaped and read back. */
  lemma StampReads(digit: char -> int, m: Moment, s: string)
    requires DigitTable(digit) && Real(m) && s == Stamp(m)
    ensures Shaped(digit, s) && Ascii(s) && MomentOf(digit, s) == m
  {
    DateReads(digit, m, s);
    TimeReads(digit, m, s);
  }

  /** An ASCII timestamp is valid exactly when it names a real date and time. */
  lemma AsciiValidIff(digit: char -> int, s: string)
    requires DigitTable(digit) && Shaped(digit, s) && Ascii(s)
    ensures Valid(digit, s) <==> Real(MomentOf(digit, s))
  {
    AsciiDigits(digit, s);
    FourDigits(digit, s, 0);
    TwoDigits(digit, s, 5);
    TwoDigits(digit, s, 8);
    TwoDigits(digit, s, 11);
    TwoDigits(digit, s, 14);
    TwoDigits(digit, s, 17);
  }

  /** Every real moment has a valid timestamp, which is read as that moment. */
  lemma StampIsValid(digit: char -> int, m: Moment)
    requires DigitTable(digit) && Real(m)
    ensures Valid(digit, Stamp(m)) && Ascii(Stamp(m)) && MomentOf(digit, Stamp(m)) == m
  {
    StampReads(digit, m, Stamp(m));
    AsciiValidIff(digit, Stamp(m));
  }
}
