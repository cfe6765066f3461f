/** Calendar timestamps and the two text forms the capsule store uses for them:
    the form a browser's date picker submits, `YYYY-MM-DDTHH:MM` (strptime format
    `%Y-%m-%dT%H:%M`), and the form stored in the tables, `YYYY-MM-DD HH:MM:SS`
    (`%Y-%m-%d %H:%M:%S`). All instants are UTC. */
module Timestamps {
  import opened Common
  import opened Text

  /** A `datetime` at whole-second precision. */
  datatype DateTime = DateTime(year: int, month: int, day: int, hour: int, minute: int, second: int)

  predicate IsLeapYear(y: int) {
    y % 4 == 0 && (y % 100 != 0 || y % 400 == 0)
  }

  function DaysInMonth(y: int, m: int): int {
    if m == 2 then (if IsLeapYear(y) then 29 else 28)
    else if m == 4 || m == 6 || m == 9 || m == 11 then 30
    else 31
  }

  /** The values Python's `datetime` constructor accepts. */
  predicate ValidDateTime(dt: DateTime) {
    && 1 <= dt.year <= 9999
    && 1 <= dt.month <= 12
    && 1 <= dt.day <= DaysInMonth(dt.year, dt.month)
    && 0 <= dt.hour <= 23
    && 0 <= dt.minute <= 59
    && 0 <= dt.second <= 59
  }

  /** `a < b` on datetimes: the earlier instant. */
  predicate Before(a: DateTime, b: DateTime) {
    a.year < b.year || (a.year == b.year &&
    (a.month < b.month || (a.month == b.month &&
    (a.day < b.day || (a.day == b.day &&
    (a.hour < b.hour || (a.hour == b.hour &&
    (a.minute < b.minute || (a.minute == b.minute && a.second < b.second)))))))))
  }

  /** Two zero-padded digits. */
  function Pad2(n: int): (s: string)
    requires 0 <= n < 100
    ensures |s| == 2
  {
    [DigitChar(n / 10), DigitChar(n % 10)]
  }

  /** Four zero-padded digits. */
  function Pad4(n: int): (s: string)
    requires 0 <= n < 10000
    ensures |s| == 4
  {
    Pad2(n / 100) + Pad2(n % 100)
  }

  /** Three fields with a separator between each. */
  function Join3(x: string, y: string, z: string, sep: char): string {
    x + [sep] + y + [sep] + z
  }

  /** `dt.strftime('%Y-%m-%d %H:%M:%S')`. */
  function FormatStored(dt: DateTime): (s: string)
    requires ValidDateTime(dt)
    ensures |s| == 19
  {
    Join3(Pad4(dt.year), Pad2(dt.month), Pad2(dt.day), '-') + [' ']
      + Join3(Pad2(dt.hour), Pad2(dt.minute), Pad2(dt.second), ':')
  }

  /** Positions i .. i+n-1 of s hold decimal digits. */
  predicate DigitsAt(s: string, i: int, n: int) {
    0 <= i && i + n <= |s| && forall k :: i <= k < i + n ==> IsDigit(s[k])
  }

  /** The value of the two digits at positions i and i+1. */
  function Num2(s: string, i: int): (v: int)
    requires DigitsAt(s, i, 2)
    ensures 0 <= v < 100
  {
    DigitValue(s[i]) * 10 + DigitValue(s[i + 1])
  }

  /** `datetime.strptime(s, '%Y-%m-%d %H:%M:%S')`, for the zero-padded fixed-width form;
      None where Python raises ValueError. */
  function ParseStored(s: string): (r: Option<DateTime>)
    ensures r.Some? ==> ValidDateTime(r.value)
  {
    if |s| == 19 && DigitsAt(s, 0, 4) && s[4] == '-' && DigitsAt(s, 5, 2) && s[7] == '-'
      && DigitsAt(s, 8, 2) && s[10] == ' ' && DigitsAt(s, 11, 2) && s[13] == ':'
      && DigitsAt(s, 14, 2) && s[16] == ':' && DigitsAt(s, 17, 2)
    then
      var dt := DateTime(Num2(s, 0) * 100 + Num2(s, 2), Num2(s, 5), Num2(s, 8),
                         Num2(s, 11), Num2(s, 14), Num2(s, 17));
      if ValidDateTime(dt) then Some(dt) else None
    else None
  }

  /** `datetime.strptime(s, '%Y-%m-%dT%H:%M')`, for the zero-padded fixed-width form;
      None where Python raises ValueError. Seconds are zero. */
  function ParseLocal(s: string): (r: Option<DateTime>)
    ensures r.Some? ==> ValidDateTime(r.value) && r.value.second == 0
  {
    if |s| == 16 && DigitsAt(s, 0, 4) && s[4] == '-' && DigitsAt(s, 5, 2) && s[7] == '-'
      && DigitsAt(s, 8, 2) && s[10] == 'T' && DigitsAt(s, 11, 2) && s[13] == ':'
      && DigitsAt(s, 14, 2)
    then
      var dt := DateTime(Num2(s, 0) * 100 + Num2(s, 2), Num2(s, 5), Num2(s, 8),
                         Num2(s, 11), Num2(s, 14), 0);
      if ValidDateTime(dt) then Some(dt) else None
    else None
  }

  /** The characters of FormatStored, one by one. */
  lemma FormatStoredChars(dt: DateTime)
    requires ValidDateTime(dt)
    ensures var s := FormatStored(dt);
      && s[0..4] == Pad4(dt.year) && s[4] == '-' && s[5..7] == Pad2(dt.month) && s[7] == '-'
      && s[8..10] == Pad2(dt.day) && s[10] == ' ' && s[11..13] == Pad2(dt.hour) && s[13] == ':'
      && s[14..16] == Pad2(dt.minute) && s[16] == ':' && s[17..19] == Pad2(dt.second)
  {
    var date := Join3(Pad4(dt.year), Pad2(dt.month), Pad2(dt.day), '-');
    var clock := Join3(Pad2(dt.hour), Pad2(dt.minute), Pad2(dt.second), ':');
    var s := FormatStored(dt);
    assert s == date + [' '] + clock;
    assert s[..10] == date;
    assert s[11..] == clock;
    assert date[0..4] == Pad4(dt.year) && date[5..7] == Pad2(dt.month) && date[8..10] == Pad2(dt.day);
    assert clock[0..2] == Pad2(dt.hour) && clock[3..5] == Pad2(dt.minute) && clock[6..8] == Pad2(dt.second);
    assert s[0..4] == date[0..4] && s[5..7] == date[5..7] && s[8..10] == date[8..10];
    assert s[11..13] == clock[0..2] && s[14..16] == clock[3..5] && s[17..19] == clock[6..8];
  }

  /** Reading back the two digits written by Pad2. */
  lemma Num2OfPad2(s: string, i: int, n: int)
    requires 0 <= n < 100 && 0 <= i && i + 2 <= |s| && s[i..i + 2] == Pad2(n)
    ensures DigitsAt(s, i, 2) && Num2(s, i) == n
  {
    assert s[i] == s[i..i + 2][0] && s[i + 1] == s[i..i + 2][1];
  }

  /** Writing back the two digits read by Num2. */
  lemma Pad2OfNum2(s: string, i: int)
    requires DigitsAt(s, i, 2)
    ensures s[i..i + 2] == Pad2(Num2(s, i))
  {
    var n := Num2(s, i);
    assert n / 10 == DigitValue(s[i]) && n % 10 == DigitValue(s[i + 1]);
  }

  /** The stored text of a valid datetime parses back to it. */
  lemma ParseFormatStored(dt: DateTime)
    requires ValidDateTime(dt)
    ensures ParseStored(FormatStored(dt)) == Some(dt)
  {
    var s := FormatStored(dt);
    FormatStoredChars(dt);
    var y := dt.year;
    assert s[0..2] == Pad2(y / 100) && s[2..4] == Pad2(y % 100) by {
      assert s[0..4] == Pad2(y / 100) + Pad2(y % 100);
      assert s[0..2] == s[0..4][0..2] && s[2..4] == s[0..4][2..4];
    }
    Num2OfPad2(s, 0, y / 100);
    Num2OfPad2(s, 2, y % 100);
    Num2OfPad2(s, 5, dt.month);
    Num2OfPad2(s, 8, dt.day);
    Num2OfPad2(s, 11, dt.hour);
    Num2OfPad2(s, 14, dt.minute);
    Num2OfPad2(s, 17, dt.second);
  }

  /** Text that parses in the stored form is exactly the stored text of what it parses to. */
  lemma FormatParseStored(s: string)
    requires ParseStored(s).Some?
    ensures FormatStored(ParseStored(s).value) == s
  {
    var dt := ParseStored(s).value;
    var f := FormatStored(dt);
    FormatStoredChars(dt);
    Pad2OfNum2(s, 0);
    Pad2OfNum2(s, 2);
    Pad2OfNum2(s, 5);
    Pad2OfNum2(s, 8);
    Pad2OfNum2(s, 11);
    Pad2OfNum2(s, 14);
    Pad2OfNum2(s, 17);
    var hi, lo := Num2(s, 0), Num2(s, 2);
    assert dt.year / 100 == hi && dt.year % 100 == lo;
    assert f[0..4] == s[0..2] + s[2..4];
    assert s[0..4] == s[0..2] + s[2..4];
    forall k | 0 <= k < 19 ensures f[k] == s[k] {
      if k < 4 { assert f[k] == f[0..4][k]; assert s[k] == s[0..4][k]; }
      else if 5 <= k < 7 { assert f[k] == f[5..7][k - 5]; assert s[k] == s[5..7][k - 5]; }
      else if 8 <= k < 10 { assert f[k] == f[8..10][k - 8]; assert s[k] == s[8..10][k - 8]; }
      else if 11 <= k < 13 { assert f[k] == f[11..13][k - 11]; assert s[k] == s[11..13][k - 11]; }
      else if 14 <= k < 16 { assert f[k] == f[14..16][k - 14]; assert s[k] == s[14..16][k - 14]; }
      else if 17 <= k { assert f[k] == f[17..19][k - 17]; assert s[k] == s[17..19][k - 17]; }
    }
  }

  /** `dt.strftime('%Y-%m-%dT%H:%M')`: the date-picker form, without seconds. */
  function FormatLocal(dt: DateTime): (s: string)
    requires ValidDateTime(dt)
    ensures |s| == 16
  {
    Join3(Pad4(dt.year), Pad2(dt.month), Pad2(dt.day), '-') + ['T'] + Pad2(dt.hour) + [':'] + Pad2(dt.minute)
  }

  /** The date-picker form is the stored form with a `T` for the space and no seconds. */
  lemma FormatLocalStored(dt: DateTime)
    requires ValidDateTime(dt)
    ensures FormatLocal(dt) == FormatStored(dt)[..10] + "T" + FormatStored(dt)[11..16]
  {
    var date := Join3(Pad4(dt.year), Pad2(dt.month), Pad2(dt.day), '-');
    var hm := Pad2(dt.hour) + [':'] + Pad2(dt.minute);
    var clock := Join3(Pad2(dt.hour), Pad2(dt.minute), Pad2(dt.second), ':');
    var f := FormatStored(dt);
    assert clock == hm + [':'] + Pad2(dt.second);
    assert f == date + [' '] + clock;
    assert f[..10] == date;
    assert f[11..16] == hm;
    assert FormatLocal(dt) == date + "T" + hm;
  }

  /** Every valid datetime with zero seconds is accepted in the date-picker form, and its text parses
      back to it. */
  lemma ParseFormatLocal(dt: DateTime)
    requires ValidDateTime(dt) && dt.second == 0
    ensures ParseLocal(FormatLocal(dt)) == Some(dt)
  {
    var f := FormatStored(dt);
    var l := FormatLocal(dt);
    ParseFormatStored(dt);
    FormatLocalStored(dt);
    forall k | 0 <= k < 16 && k != 10 ensures l[k] == f[k] { }
    assert l[10] == 'T';
    assert DigitsAt(l, 0, 4) && DigitsAt(l, 5, 2) && DigitsAt(l, 8, 2);
    assert DigitsAt(l, 11, 2) && DigitsAt(l, 14, 2);
    assert Num2(l, 0) == Num2(f, 0) && Num2(l, 2) == Num2(f, 2) && Num2(l, 5) == Num2(f, 5);
    assert Num2(l, 8) == Num2(f, 8) && Num2(l, 11) == Num2(f, 11) && Num2(l, 14) == Num2(f, 14);
  }

  /** Text accepted in the date-picker form is exactly the date-picker text of what it parses to. */
  lemma FormatParseLocal(s: string)
    requires ParseLocal(s).Some?
    ensures FormatLocal(ParseLocal(s).value) == s
  {
    var dt := ParseLocal(s).value;
    var want := s[..10] + " " + s[11..] + ":00";
    LocalAsStored(s);
    FormatParseStored(want);
    FormatLocalStored(dt);
    assert want[..10] == s[..10] && want[11..16] == s[11..16];
    assert s == s[..10] + "T" + s[11..16];
  }

  /** `Database.format_date`: a date-picker value is rewritten in the stored form; text that does
      not parse is returned unchanged. */
  function FormatDate(s: string): (r: string)
    ensures ParseLocal(s).None? ==> r == s
    ensures ParseLocal(s).Some? ==> ParseStored(r) == ParseLocal(s)
  {
    match ParseLocal(s)
    case None => s
    case Some(dt) => ParseFormatStored(dt); FormatStored(dt)
  }

  /** The local form, with the `T` made a space and `:00` seconds added, reads as the same moment
      in the stored form. */
  lemma LocalAsStored(s: string)
    requires ParseLocal(s).Some?
    ensures ParseStored(s[..10] + " " + s[11..] + ":00") == ParseLocal(s)
  {
    var want := s[..10] + " " + s[11..] + ":00";
    assert |want| == 19;
    forall k | 0 <= k < 19 && k != 10 && k < 16 ensures want[k] == s[k] { }
    assert want[10] == ' ' && want[16] == ':' && want[17] == '0' && want[18] == '0';
    assert DigitsAt(want, 0, 4) && DigitsAt(want, 5, 2) && DigitsAt(want, 8, 2);
    assert DigitsAt(want, 11, 2) && DigitsAt(want, 14, 2) && DigitsAt(want, 17, 2);
    assert Num2(want, 0) == Num2(s, 0) && Num2(want, 2) == Num2(s, 2) && Num2(want, 5) == Num2(s, 5);
    assert Num2(want, 8) == Num2(s, 8) && Num2(want, 11) == Num2(s, 11) && Num2(want, 14) == Num2(s, 14);
    assert Num2(want, 17) == 0;
  }

  /** What format_date does to the text: the `T` becomes a space and `:00` seconds are added. */
  lemma {:induction false} FormatDateText(s: string)
    requires ParseLocal(s).Some?
    ensures FormatDate(s) == s[..10] + " " + s[11..] + ":00"
  {
    var want := s[..10] + " " + s[11..] + ":00";
    LocalAsStored(s);
    FormatParseStored(want);
  }

  /** format_date is idempotent: its output is in the stored form, which it leaves alone. */
  lemma FormatDateIdempotent(s: string)
    ensures FormatDate(FormatDate(s)) == FormatDate(s)
  {
    if ParseLocal(s).Some? {
      assert |FormatDate(s)| == 19;
    }
  }

  /** Two-digit fields compare as text the way their values compare. */
  lemma Pad2Order(x: int, y: int)
    requires 0 <= x < 100 && 0 <= y < 100
    ensures TextLess(Pad2(x), Pad2(y)) <==> x < y
    ensures Pad2(x) == Pad2(y) <==> x == y
  {
    var a, b := Pad2(x), Pad2(y);
    assert TextLess(a[1..], b[1..]) <==> a[1] < b[1] by {
      assert TextLess(a[1..][1..], b[1..][1..]) == false by {
        assert a[1..][1..] == [] && b[1..][1..] == [];
      }
    }
    assert x == 10 * (x / 10) + x % 10 && y == 10 * (y / 10) + y % 10;
    assert a == b <==> a[0] == b[0] && a[1] == b[1];
  }

  /** Four-digit fields compare as text the way their values compare. */
  lemma Pad4Order(x: int, y: int)
    requires 0 <= x < 10000 && 0 <= y < 10000
    ensures TextLess(Pad4(x), Pad4(y)) <==> x < y
    ensures Pad4(x) == Pad4(y) <==> x == y
  {
    Pad2Order(x / 100, y / 100);
    Pad2Order(x % 100, y % 100);
    TextLessConcat(Pad2(x / 100), Pad2(x % 100), Pad2(y / 100), Pad2(y % 100));
    assert x == 100 * (x / 100) + x % 100 && y == 100 * (y / 100) + y % 100;
  }

  /** Fixed-width fields joined by the same separator compare field by field. */
  lemma Join3Order(x1: string, x2: string, x3: string, y1: string, y2: string, y3: string, sep: char)
    requires |x1| == |y1| && |x2| == |y2|
    ensures TextLess(Join3(x1, x2, x3, sep), Join3(y1, y2, y3, sep)) <==>
      TextLess(x1, y1) || (x1 == y1 && (TextLess(x2, y2) || (x2 == y2 && TextLess(x3, y3))))
    ensures Join3(x1, x2, x3, sep) == Join3(y1, y2, y3, sep) <==> x1 == y1 && x2 == y2 && x3 == y3
  {
    var s := [sep];
    TextLessIrreflexive(s);
    assert Join3(x1, x2, x3, sep) == x1 + (s + (x2 + (s + x3)));
    assert Join3(y1, y2, y3, sep) == y1 + (s + (y2 + (s + y3)));
    TextLessConcat(x1, s + (x2 + (s + x3)), y1, s + (y2 + (s + y3)));
    TextLessConcat(s, x2 + (s + x3), s, y2 + (s + y3));
    TextLessConcat(x2, s + x3, y2, s + y3);
    TextLessConcat(s, x3, s, y3);
  }

  /** The stored text form sorts chronologically: SQLite's comparison of two stored timestamps
      agrees with Python's comparison of the datetimes they denote. */
  lemma StoredOrderIsChronological(a: DateTime, b: DateTime)
    requires ValidDateTime(a) && ValidDateTime(b)
    ensures TextLess(FormatStored(a), FormatStored(b)) <==> Before(a, b)
  {
    var da := Join3(Pad4(a.year), Pad2(a.month), Pad2(a.day), '-');
    var db := Join3(Pad4(b.year), Pad2(b.month), Pad2(b.day), '-');
    var ca := Join3(Pad2(a.hour), Pad2(a.minute), Pad2(a.second), ':');
    var cb := Join3(Pad2(b.hour), Pad2(b.minute), Pad2(b.second), ':');
    Pad4Order(a.year, b.year);
    Pad2Order(a.month, b.month);
    Pad2Order(a.day, b.day);
    Pad2Order(a.hour, b.hour);
    Pad2Order(a.minute, b.minute);
    Pad2Order(a.second, b.second);
    Join3Order(Pad4(a.year), Pad2(a.month), Pad2(a.day), Pad4(b.year), Pad2(b.month), Pad2(b.day), '-');
    Join3Order(Pad2(a.hour), Pad2(a.minute), Pad2(a.second), Pad2(b.hour), Pad2(b.minute), Pad2(b.second), ':');
    assert |da| == |db|;
    assert FormatStored(a) == da + ([' '] + ca);
    assert FormatStored(b) == db + ([' '] + cb);
    TextLessConcat(da, [' '] + ca, db, [' '] + cb);
    TextLessConcat([' '], ca, [' '], cb);
    TextLessIrreflexive([' ']);
  }
}
