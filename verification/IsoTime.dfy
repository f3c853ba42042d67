/** Times as `isoformat()` stores them, and what comparing two such texts in SQL decides.
    The fraction is left out when it is zero, so they differ in length. */
module IsoTime {
  datatype DateTime = DateTime(year: nat, month: nat, day: nat, hour: nat, minute: nat, second: nat, micro: nat)

  predicate IsLeap(year: nat) {
    year % 4 == 0 && (year % 100 != 0 || year % 400 == 0)
  }

  function DaysInMonth(year: nat, month: nat): nat {
    if month == 2 then (if IsLeap(year) then 29 else 28)
    else if month in {4, 6, 9, 11} then 30
    else 31
  }

  predicate IsDateTime(t: DateTime) {
    && 1 <= t.year <= 9999 && 1 <= t.month <= 12 && 1 <= t.day <= DaysInMonth(t.year, t.month)
    && t.hour < 24 && t.minute < 60 && t.second < 60 && t.micro < 1_000_000
  }

  type Utc = t: DateTime | IsDateTime(t) witness DateTime(1970, 1, 1, 0, 0, 0, 0)

  // ----- the moment itself, in microseconds of the proleptic Gregorian calendar -----

  function DaysBeforeYear(year: nat): int
    requires 1 <= year
  {
    (year - 1) * 365 + (year - 1) / 4 - (year - 1) / 100 + (year - 1) / 400
  }

  function DaysBeforeMonth(year: nat, month: nat): nat
    requires 1 <= month
  {
    if month == 1 then 0 else DaysBeforeMonth(year, month - 1) + DaysInMonth(year, month - 1)
  }

  function Ordinal(t: Utc): int {
    DaysBeforeYear(t.year) + DaysBeforeMonth(t.year, t.month) + t.day
  }

  function SecondOfDay(t: Utc): int {
    (t.hour * 60 + t.minute) * 60 + t.second
  }

  function Micros(t: Utc): int {
    (Ordinal(t) * 86_400 + SecondOfDay(t)) * 1_000_000 + t.micro
  }

  // ----- the text -----

  function Digit(n: nat): char
    requires n < 10
  {
    '0' + n as char
  }

  function Power10(width: nat): nat {
    if width == 0 then 1 else 10 * Power10(width - 1)
  }

  /** `n` in decimal, padded with zeros on the left. */
  function Padded(width: nat, n: nat): string {
    if width == 0 then "" else Padded(width - 1, n / 10) + [Digit(n % 10)]
  }

  function Fraction(micro: nat): string {
    if micro == 0 then "+00:00" else "." + (Padded(6, micro) + "+00:00")
  }

  function ClockText(t: Utc): string {
    Padded(2, t.hour) + (":" + (Padded(2, t.minute) + (":" + (Padded(2, t.second) + Fraction(t.micro)))))
  }

  function Text(t: Utc): string {
    Padded(4, t.year) + ("-" + (Padded(2, t.month) + ("-" + (Padded(2, t.day) + ("T" + ClockText(t))))))
  }

  /** SQLite's `<` on text: character by character, a proper prefix first. */
  predicate Before(s: string, t: string) {
    if t == "" then false
    else if s == "" then true
    else s[0] < t[0] || (s[0] == t[0] && Before(s[1..], t[1..]))
  }

  // ----- comparing texts compares fields -----

  lemma {:induction false} SameLead(lead: string, s: string, t: string)
    ensures Before(lead + s, lead + t) <==> Before(s, t)
  {
    if lead == "" {
      assert lead + s == s && lead + t == t;
    } else {
      SameLead(lead[1..], s, t);
      assert (lead + s)[1..] == lead[1..] + s && (lead + t)[1..] == lead[1..] + t;
    }
  }

  lemma {:induction false} PaddedOrder(width: nat, m: nat, n: nat, s: string, t: string)
    requires m < Power10(width) && n < Power10(width)
    ensures Before(Padded(width, m) + s, Padded(width, n) + t) <==> m < n || (m == n && Before(s, t))
  {
    if width == 0 {
      assert "" + s == s && "" + t == t;
    } else {
      var a, b := [Digit(m % 10)], [Digit(n % 10)];
      PaddedOrder(width - 1, m / 10, n / 10, a + s, b + t);
      assert Padded(width - 1, m / 10) + (a + s) == Padded(width, m) + s;
      assert Padded(width - 1, n / 10) + (b + t) == Padded(width, n) + t;
      assert (a + s)[1..] == s && (b + t)[1..] == t;
    }
  }

  lemma Widths()
    ensures Power10(2) == 100 && Power10(4) == 10_000 && Power10(6) == 1_000_000
  {
    assert Power10(2) == 10 * Power10(1);
    assert Power10(4) == 10 * Power10(3);
    assert Power10(6) == 10 * Power10(5);
  }

  /** '+' sorts before '.', so a whole second sorts before any fraction of it. */
  lemma FractionOrder(m: nat, n: nat)
    requires m < 1_000_000 && n < 1_000_000
    ensures Before(Fraction(m), Fraction(n)) <==> m < n
  {
    Widths();
    SameLead(".", Padded(6, m) + "+00:00", Padded(6, n) + "+00:00");
    PaddedOrder(6, m, n, "+00:00", "+00:00");
    SameLead("+00:00", "", "");
    assert "+00:00" + "" == "+00:00";
  }

  predicate ClockBefore(a: Utc, b: Utc) {
    a.hour < b.hour || (a.hour == b.hour && (a.minute < b.minute || (a.minute == b.minute
      && (a.second < b.second || (a.second == b.second && a.micro < b.micro)))))
  }

  predicate FieldsBefore(a: Utc, b: Utc) {
    a.year < b.year || (a.year == b.year && (a.month < b.month || (a.month == b.month
      && (a.day < b.day || (a.day == b.day && ClockBefore(a, b))))))
  }

  lemma ClockTextOrder(a: Utc, b: Utc)
    ensures Before(ClockText(a), ClockText(b)) <==> ClockBefore(a, b)
  {
    Widths();
    FractionOrder(a.micro, b.micro);
    var s2, t2 := Padded(2, a.second) + Fraction(a.micro), Padded(2, b.second) + Fraction(b.micro);
    PaddedOrder(2, a.second, b.second, Fraction(a.micro), Fraction(b.micro));
    var s1, t1 := Padded(2, a.minute) + (":" + s2), Padded(2, b.minute) + (":" + t2);
    SameLead(":", s2, t2);
    PaddedOrder(2, a.minute, b.minute, ":" + s2, ":" + t2);
    SameLead(":", s1, t1);
    PaddedOrder(2, a.hour, b.hour, ":" + s1, ":" + t1);
  }

  lemma TextOrder(a: Utc, b: Utc)
    ensures Before(Text(a), Text(b)) <==> FieldsBefore(a, b)
  {
    Widths();
    ClockTextOrder(a, b);
    SameLead("T", ClockText(a), ClockText(b));
    var s2, t2 := Padded(2, a.day) + ("T" + ClockText(a)), Padded(2, b.day) + ("T" + ClockText(b));
    PaddedOrder(2, a.day, b.day, "T" + ClockText(a), "T" + ClockText(b));
    SameLead("-", s2, t2);
    var s1, t1 := Padded(2, a.month) + ("-" + s2), Padded(2, b.month) + ("-" + t2);
    PaddedOrder(2, a.month, b.month, "-" + s2, "-" + t2);
    SameLead("-", s1, t1);
    PaddedOrder(4, a.year, b.year, "-" + s1, "-" + t1);
  }

  // ----- comparing fields compares moments -----

  lemma {:induction false} MonthsBefore(year: nat, m: nat, n: nat)
    requires 1 <= m < n
    ensures DaysBeforeMonth(year, m) + DaysInMonth(year, m) <= DaysBeforeMonth(year, n)
  {
    if m < n - 1 {
      MonthsBefore(year, m, n - 1);
    }
  }

  lemma YearLength(year: nat)
    ensures DaysBeforeMonth(year, 12) + DaysInMonth(year, 12) == if IsLeap(year) then 366 else 365
  {
    assert DaysBeforeMonth(year, 3) == DaysBeforeMonth(year, 2) + DaysInMonth(year, 2);
    assert DaysBeforeMonth(year, 5) == DaysBeforeMonth(year, 4) + 30;
    assert DaysBeforeMonth(year, 7) == DaysBeforeMonth(year, 6) + 30;
    assert DaysBeforeMonth(year, 9) == DaysBeforeMonth(year, 8) + 31;
    assert DaysBeforeMonth(year, 11) == DaysBeforeMonth(year, 10) + 31;
  }

  lemma Quotient(y: int, k: nat, q: int, r: int)
    requires k in {4, 100, 400} && y == k * q + r && 0 <= r < k
    ensures y / k == q && y % k == r
  {
    if k == 4 {
      assert y / 4 == q;
    } else if k == 100 {
      assert y / 100 == q;
    } else {
      assert y / 400 == q;
    }
  }

  /** From one year to the next a multiple of `k` is passed exactly in such a year. */
  lemma Carry(y: nat, k: nat)
    requires 1 <= y && k in {4, 100, 400}
    ensures y / k == (y - 1) / k + (if y % k == 0 then 1 else 0)
  {
    var q, r := (y - 1) / k, (y - 1) % k;
    if r + 1 < k {
      Quotient(y, k, q, r + 1);
    } else {
      Quotient(y, k, q + 1, 0);
    }
  }

  lemma LeapChain(y: nat)
    ensures y % 400 == 0 ==> y % 100 == 0
    ensures y % 100 == 0 ==> y % 4 == 0
  {
    if y % 400 == 0 {
      Quotient(y, 100, 4 * (y / 400), 0);
    }
    if y % 100 == 0 {
      Quotient(y, 4, 25 * (y / 100), 0);
    }
  }

  lemma NextYear(y: nat)
    requires 1 <= y
    ensures DaysBeforeYear(y + 1) == DaysBeforeYear(y) + if IsLeap(y) then 366 else 365
  {
    Carry(y, 4);
    Carry(y, 100);
    Carry(y, 400);
    LeapChain(y);
    var fours, hundreds, fourHundreds := (y - 1) / 4, (y - 1) / 100, (y - 1) / 400;
    assert DaysBeforeYear(y) == (y - 1) * 365 + fours - hundreds + fourHundreds;
    assert DaysBeforeYear(y + 1) == y * 365 + y / 4 - y / 100 + y / 400;
  }

  lemma {:induction false} YearsBefore(m: nat, n: nat)
    requires 1 <= m < n
    ensures DaysBeforeYear(m) + (if IsLeap(m) then 366 else 365) <= DaysBeforeYear(n)
  {
    if m < n - 1 {
      YearsBefore(m, n - 1);
    }
    NextYear(n - 1);
  }

  lemma EarlierDate(a: Utc, b: Utc)
    requires a.year < b.year || (a.year == b.year && (a.month < b.month || (a.month == b.month && a.day < b.day)))
    ensures Ordinal(a) < Ordinal(b)
  {
    if a.year < b.year {
      YearsBefore(a.year, b.year);
      YearLength(a.year);
      if a.month < 12 {
        MonthsBefore(a.year, a.month, 12);
      }
    } else if a.month < b.month {
      MonthsBefore(a.year, a.month, b.month);
    }
  }

  lemma EarlierMoment(a: Utc, b: Utc)
    requires FieldsBefore(a, b)
    ensures Micros(a) < Micros(b)
  {
    if (a.year, a.month, a.day) != (b.year, b.month, b.day) {
      EarlierDate(a, b);
    }
  }

  // ----- the moments are counted, one by one -----

  /** The last microsecond there is. */
  predicate IsLast(t: Utc) {
    t == DateTime(9999, 12, 31, 23, 59, 59, 999_999)
  }

  /** The next day on the calendar. */
  function NextDay(t: Utc): Utc
    requires !(t.year == 9999 && t.month == 12 && t.day == 31)
  {
    if t.day < DaysInMonth(t.year, t.month) then t.(day := t.day + 1)
    else if t.month < 12 then t.(month := t.month + 1, day := 1)
    else t.(year := t.year + 1, month := 1, day := 1)
  }

  /** The next reading of a clock that counts microseconds. */
  function NextMicro(t: Utc): Utc
    requires !IsLast(t)
  {
    if t.micro < 999_999 then t.(micro := t.micro + 1)
    else if t.second < 59 then t.(second := t.second + 1, micro := 0)
    else if t.minute < 59 then t.(minute := t.minute + 1, second := 0, micro := 0)
    else if t.hour < 23 then t.(hour := t.hour + 1, minute := 0, second := 0, micro := 0)
    else NextDay(t).(hour := 0, minute := 0, second := 0, micro := 0)
  }

  lemma NextDayOrdinal(t: Utc)
    requires !(t.year == 9999 && t.month == 12 && t.day == 31)
    ensures Ordinal(NextDay(t)) == Ordinal(t) + 1
  {
    if t.day == DaysInMonth(t.year, t.month) && t.month == 12 {
      NextYear(t.year);
      YearLength(t.year);
      assert DaysBeforeMonth(t.year + 1, 1) == 0;
    }
  }

  /** Within a day the clock alone moves. */
  lemma ClockCounts(t: Utc)
    requires !(t.hour == 23 && t.minute == 59 && t.second == 59 && t.micro == 999_999)
    ensures Ordinal(NextMicro(t)) == Ordinal(t)
    ensures SecondOfDay(NextMicro(t)) * 1_000_000 + NextMicro(t).micro == SecondOfDay(t) * 1_000_000 + t.micro + 1
  {
    var u := NextMicro(t);
    assert u.year == t.year && u.month == t.month && u.day == t.day;
  }

  lemma InMicros(t: Utc)
    ensures Micros(t) == Ordinal(t) * 86_400_000_000 + SecondOfDay(t) * 1_000_000 + t.micro
  {
  }

  /** `Micros` counts: it goes up by one with every reading of the clock. */
  lemma MicrosCounts(t: Utc)
    requires !IsLast(t)
    ensures Micros(NextMicro(t)) == Micros(t) + 1
  {
    var u := NextMicro(t);
    InMicros(t);
    InMicros(u);
    if t.hour == 23 && t.minute == 59 && t.second == 59 && t.micro == 999_999 {
      MidnightCounts(t);
    } else {
      ClockCounts(t);
    }
  }

  /** It begins with the first day of the calendar. */
  lemma MicrosBegin(t: Utc)
    requires t.year == 1 && t.month == 1 && t.day == 1
    ensures Micros(t) == 86_400_000_000 + SecondOfDay(t) * 1_000_000 + t.micro
  {
    InMicros(t);
    assert DaysBeforeMonth(1, 1) == 0 && DaysBeforeYear(1) == 0;
  }

  lemma MidnightCounts(t: Utc)
    requires t.hour == 23 && t.minute == 59 && t.second == 59 && t.micro == 999_999 && !IsLast(t)
    ensures var u := NextMicro(t);
            Ordinal(u) == Ordinal(t) + 1 && SecondOfDay(u) == 0 && u.micro == 0 && SecondOfDay(t) == 86_399
  {
    NextDayOrdinal(t);
    var u, day := NextMicro(t), NextDay(t);
    assert u.year == day.year && u.month == day.month && u.day == day.day;
  }

  /** Four centuries of the Gregorian calendar are 146097 days, 97 of their years leap. */
  lemma FourCenturies(year: nat)
    requires 1 <= year
    ensures DaysBeforeYear(year + 400) == DaysBeforeYear(year) + 146_097
    ensures IsLeap(2000) && IsLeap(2024) && !IsLeap(1900) && !IsLeap(2023)
  {
    var y := year - 1;
    assert (y + 400) / 4 == y / 4 + 100 && (y + 400) / 100 == y / 100 + 4 && (y + 400) / 400 == y / 400 + 1;
  }

  // ----- the text can be read back -----

  function Number(s: string): int {
    if s == "" then 0 else Number(s[..|s| - 1]) * 10 + (s[|s| - 1] as int - '0' as int)
  }

  lemma {:induction false} PaddedReads(width: nat, n: nat)
    requires n < Power10(width)
    ensures |Padded(width, n)| == width && Number(Padded(width, n)) == n
  {
    if width > 0 {
      PaddedReads(width - 1, n / 10);
      var s := Padded(width, n);
      assert s[..|s| - 1] == Padded(width - 1, n / 10);
    }
  }

  function DateText(t: Utc): string {
    Padded(4, t.year) + ("-" + (Padded(2, t.month) + ("-" + Padded(2, t.day))))
  }

  /** Three texts with a separator between them. */
  lemma Parts(a: string, b: string, c: string, sep: string)
    requires |sep| == 1
    ensures var s, k := a + (sep + (b + (sep + c))), |a| + 1 + |b|;
            && |s| == k + 1 + |c| && s[..|a|] == a && s[|a|] == sep[0] && s[|a| + 1..k] == b && s[k] == sep[0]
            && s[k + 1..] == c
  {
  }

  lemma FieldReads(width: nat, n: nat, max: nat)
    requires n <= max && ((width == 2 && max < 100) || (width == 4 && max < 10_000))
    ensures Number(Padded(width, n)) == n
  {
    Widths();
    PaddedReads(width, n);
  }

  lemma DateReads(t: Utc)
    ensures var d := DateText(t);
            && |d| == 10 && d[4] == '-' && d[7] == '-'
            && d[..4] == Padded(4, t.year) && d[5..7] == Padded(2, t.month) && d[8..10] == Padded(2, t.day)
  {
    PaddedLength(4, t.year);
    PaddedLength(2, t.month);
    PaddedLength(2, t.day);
    DateParts(Padded(4, t.year), Padded(2, t.month), Padded(2, t.day));
  }

  lemma {:induction false} PaddedLength(width: nat, n: nat)
    ensures |Padded(width, n)| == width
  {
    if width > 0 {
      PaddedLength(width - 1, n / 10);
    }
  }

  lemma DateParts(y: string, m: string, d: string)
    requires |y| == 4 && |m| == 2 && |d| == 2
    ensures var s := y + ("-" + (m + ("-" + d)));
            |s| == 10 && s[4] == '-' && s[7] == '-' && s[..4] == y && s[5..7] == m && s[8..10] == d
  {
    Parts(y, m, d, "-");
    var s := y + ("-" + (m + ("-" + d)));
    assert s[8..10] == s[8..];
  }

  lemma TextIsBoth(t: Utc)
    ensures Text(t) == DateText(t) + ("T" + ClockText(t))
  {
    Regroup(Padded(4, t.year), Padded(2, t.month), Padded(2, t.day), "T" + ClockText(t));
  }

  lemma Regroup(year: string, month: string, day: string, rest: string)
    ensures year + ("-" + (month + ("-" + (day + rest)))) == year + ("-" + (month + ("-" + day))) + rest
  {
    assert "-" + (day + rest) == "-" + day + rest;
    assert month + ("-" + day + rest) == month + ("-" + day) + rest;
    assert "-" + (month + ("-" + day) + rest) == "-" + (month + ("-" + day)) + rest;
  }

  /** The fields of the date stand where ISO 8601 has them, each in decimal. */
  lemma TextReadsDate(t: Utc)
    ensures var s := Text(t);
            && |s| == (if t.micro == 0 then 25 else 32) && s[4] == '-' && s[7] == '-' && s[10] == 'T'
            && Number(s[..4]) == t.year && Number(s[5..7]) == t.month && Number(s[8..10]) == t.day
  {
    FieldReads(4, t.year, 9999);
    FieldReads(2, t.month, 12);
    FieldReads(2, t.day, 31);
    DateReads(t);
    TextIsBoth(t);
    ClockReads(t);
    DateStands(DateText(t), ClockText(t));
  }

  /** Where the date's fields stand in the whole text. */
  lemma DateStands(d: string, c: string)
    requires |d| == 10
    ensures var s := d + ("T" + c);
            && |s| == 11 + |c| && s[4] == d[4] && s[7] == d[7] && s[10] == 'T'
            && s[..4] == d[..4] && s[5..7] == d[5..7] && s[8..10] == d[8..10]
  {
  }

  /** And the clock's, with its fraction only if there is one, in universal time. */
  lemma TextReadsClock(t: Utc)
    ensures var s := Text(t);
            && |s| == (if t.micro == 0 then 25 else 32) && s[13] == ':' && s[16] == ':'
            && Number(s[11..13]) == t.hour && Number(s[14..16]) == t.minute && Number(s[17..19]) == t.second
            && s[|s| - 6..] == "+00:00" && (t.micro != 0 ==> s[19] == '.' && Number(s[20..26]) == t.micro)
  {
    DateReads(t);
    TextIsBoth(t);
    ClockReads(t);
    ClockStands(DateText(t), ClockText(t));
  }

  /** Where the clock's fields stand in the whole text. */
  lemma ClockStands(d: string, c: string)
    requires |d| == 10 && |c| >= 14
    ensures var s := d + ("T" + c);
            && |s| == 11 + |c| && s[13] == c[2] && s[16] == c[5] && s[19] == c[8]
            && s[11..13] == c[..2] && s[14..16] == c[3..5] && s[17..19] == c[6..8] && s[|s| - 6..] == c[|c| - 6..]
            && (|c| >= 15 ==> s[20..26] == c[9..15])
  {
    var s := d + ("T" + c);
    assert s[11..] == c;
    Slice(s, 11, 0, 2);
    Slice(s, 11, 3, 5);
    Slice(s, 11, 6, 8);
    Slice(s, 11, |c| - 6, |c|);
    if |c| >= 15 {
      Slice(s, 11, 9, 15);
    }
  }

  lemma Slice(s: string, n: nat, i: nat, j: nat)
    requires i <= j && n + j <= |s|
    ensures s[n..][i..j] == s[n + i..n + j]
  {
  }

  lemma ClockReads(t: Utc)
    ensures var c := ClockText(t);
            && |c| == (if t.micro == 0 then 14 else 21) && c[2] == ':' && c[5] == ':'
            && Number(c[..2]) == t.hour && Number(c[3..5]) == t.minute && Number(c[6..8]) == t.second
            && c[|c| - 6..] == "+00:00" && (t.micro != 0 ==> c[8] == '.' && Number(c[9..15]) == t.micro)
  {
    Widths();
    PaddedReads(2, t.hour);
    PaddedReads(2, t.minute);
    var rest := Padded(2, t.second) + Fraction(t.micro);
    Parts(Padded(2, t.hour), Padded(2, t.minute), rest, ":");
    RestReads(t);
    var c := ClockText(t);
    assert c[6..] == rest;
    assert c[6..8] == rest[..2] && c[|c| - 6..] == rest[|rest| - 6..];
    if t.micro != 0 {
      assert c[8] == rest[2] && c[9..15] == rest[3..9];
    }
  }

  lemma RestReads(t: Utc)
    ensures var r := Padded(2, t.second) + Fraction(t.micro);
            && |r| == (if t.micro == 0 then 8 else 15) && Number(r[..2]) == t.second
            && r[|r| - 6..] == "+00:00" && (t.micro != 0 ==> r[2] == '.' && Number(r[3..9]) == t.micro)
  {
    Widths();
    PaddedReads(2, t.second);
    PaddedReads(6, t.micro);
    Halved(Padded(2, t.second), Fraction(t.micro));
    if t.micro != 0 {
      Dotted(Padded(2, t.second), Padded(6, t.micro), "+00:00");
    }
  }

  lemma Halved(a: string, b: string)
    ensures (a + b)[..|a|] == a && (a + b)[|a|..] == b
  {
  }

  lemma Dotted(a: string, b: string, c: string)
    ensures var s, k := a + ("." + (b + c)), |a| + 1 + |b|;
            |s| == k + |c| && s[|a|] == '.' && s[|a| + 1..k] == b && s[k..] == c
  {
  }

  // ----- the two together -----

  /** Comparing stored texts decides exactly what comparing the moments does. */
  lemma TextComparesTimes(a: Utc, b: Utc)
    ensures Before(Text(a), Text(b)) <==> Micros(a) < Micros(b)
    ensures Text(a) == Text(b) <==> Micros(a) == Micros(b)
    ensures Text(a) == Text(b) <==> a == b
  {
    TextOrder(a, b);
    TextOrder(b, a);
    if FieldsBefore(a, b) {
      EarlierMoment(a, b);
      Irreflexive(Text(b));
    } else if FieldsBefore(b, a) {
      EarlierMoment(b, a);
      Irreflexive(Text(a));
    } else {
      assert a == b;
    }
  }

  lemma {:induction false} Irreflexive(s: string)
    ensures !Before(s, s)
  {
    if s != "" {
      Irreflexive(s[1..]);
    }
  }

  /** So each SQL cutoff, with `<`, `<=` or `>`, selects the rows the subtraction of times
      would: `at` is selected against a cutoff `span` microseconds before `now`. */
  lemma CutoffSelects(at: Utc, now: Utc, cutoff: Utc, span: int)
    requires Micros(cutoff) == Micros(now) - span
    ensures Before(Text(at), Text(cutoff)) <==> Micros(now) - Micros(at) > span
    ensures Before(Text(at), Text(cutoff)) || Text(at) == Text(cutoff) <==> Micros(now) - Micros(at) >= span
    ensures Before(Text(cutoff), Text(at)) <==> Micros(now) - Micros(at) < span
  {
    TextComparesTimes(at, cutoff);
    TextComparesTimes(cutoff, at);
  }
}
