/**
 * Conversion between datetimes and the `YYYY-MM-DD` day strings used to query the
 * tweet source and to key the emotion and COVID tables (tweet_data.py).
 */
module TweetData {
  import opened Wrappers
  import opened Text
  import opened Calendar

  /** Two decimal digits of `n`, zero-padded. */
  function Pad2(n: int): string {
    [DigitChar((n / 10) % 10), DigitChar(n % 10)]
  }

  /** Four decimal digits of `n`, zero-padded (strftime's `%Y`). */
  function Pad4(n: int): string {
    Pad2(n / 100) + Pad2(n % 100)
  }

  /** The number written by the two digits at `s[i]`, `s[i + 1]`. */
  function Digits2(s: string, i: nat): int
    requires i + 2 <= |s| && IsDigit(s[i]) && IsDigit(s[i + 1])
  {
    DigitValue(s[i]) * 10 + DigitValue(s[i + 1])
  }

  /** The number written by the four digits starting at `s[i]`. */
  function Digits4(s: string, i: nat): int
    requires i + 4 <= |s| && forall k | i <= k < i + 4 :: IsDigit(s[k])
  {
    Digits2(s, i) * 100 + Digits2(s, i + 2)
  }

  /** The date part of `t` as the string `date.strftime('%Y-%m-%d')`. */
  function ToTwint(t: DateTime): (s: string)
    ensures |s| == 10 && s[4] == '-' && s[7] == '-'
    ensures forall k | 0 <= k < 10 && k != 4 && k != 7 :: IsDigit(s[k])
    ensures ValidDate(t.date) ==>
              Digits4(s, 0) == t.date.year && Digits2(s, 5) == t.date.month && Digits2(s, 8) == t.date.day
  {
    DayStringShape(t.date.year, t.date.month, t.date.day);
    if ValidDate(t.date) then
      DayStringDigits(t.date.year, t.date.month, t.date.day);
      Pad4(t.date.year) + "-" + Pad2(t.date.month) + "-" + Pad2(t.date.day)
    else
      Pad4(t.date.year) + "-" + Pad2(t.date.month) + "-" + Pad2(t.date.day)
  }

  /** The pattern `DDDD-DD-DD` of any padded year, month and day. */
  lemma DayStringShape(year: int, month: int, day: int)
    ensures var s := Pad4(year) + "-" + Pad2(month) + "-" + Pad2(day);
            |s| == 10 && s[4] == '-' && s[7] == '-' && forall k | 0 <= k < 10 && k != 4 && k != 7 :: IsDigit(s[k])
  {
  }

  /** The digits of a padded year, month and day spell them back. */
  lemma DayStringDigits(year: int, month: int, day: int)
    requires 0 <= year < 10000 && 0 <= month < 100 && 0 <= day < 100
    ensures var s := Pad4(year) + "-" + Pad2(month) + "-" + Pad2(day);
            |s| == 10 && forall k | 0 <= k < 10 && k != 4 && k != 7 :: IsDigit(s[k])
    ensures var s := Pad4(year) + "-" + Pad2(month) + "-" + Pad2(day);
            Digits4(s, 0) == year && Digits2(s, 5) == month && Digits2(s, 8) == day
  {
    var s := Pad4(year) + "-" + Pad2(month) + "-" + Pad2(day);
    DayStringShape(year, month, day);
    Pad4Digits(year);
    Pad2Digits(month);
    Pad2Digits(day);
    var y, m, d := Pad4(year), Pad2(month), Pad2(day);
    assert |y| == 4 && |m| == 2 && |d| == 2;
    assert s == y + "-" + m + "-" + d;
    assert s[0..4] == y;
    assert s[5..7] == m;
    assert s[8..10] == d;
  }

  /** `t.strftime('%Y-%m-%d %H:%M:%S')`. */
  function Format(t: DateTime): string {
    ToTwint(t) + " " + Pad2(t.hour) + ":" + Pad2(t.minute) + ":" + Pad2(t.second)
  }

  /** The character pattern `DDDD-DD-DD DD:DD:DD` of the canonical, zero-padded format. */
  predicate Shaped(s: string) {
    |s| == 19 &&
    forall k | 0 <= k < 19 ::
      if k == 4 || k == 7 then s[k] == '-'
      else if k == 10 then s[k] == ' '
      else if k == 13 || k == 16 then s[k] == ':'
      else IsDigit(s[k])
  }

  /**
   * `datetime.strptime(s, '%Y-%m-%d %H:%M:%S')` for zero-padded fields: a string not in
   * the format, or naming no valid datetime, raises ValueError.
   */
  function Parse(s: string): (r: Result<DateTime>)
    ensures r.Ok? ==> ValidDateTime(r.value)
    ensures r.Err? ==> r.error == ValueError
  {
    if !Shaped(s) then Err(ValueError)
    else
      var t := DateTime(Date(Digits4(s, 0), Digits2(s, 5), Digits2(s, 8)),
                        Digits2(s, 11), Digits2(s, 14), Digits2(s, 17));
      if ValidDateTime(t) then Ok(t) else Err(ValueError)
  }

  predicate OccursAt(s: string, pattern: string, i: int)
    requires 0 <= i <= |s| - |pattern|
  {
    s[i..i + |pattern|] == pattern
  }

  /** Python's `pattern in s` for strings. */
  predicate Contains(s: string, pattern: string) {
    exists i | 0 <= i <= |s| - |pattern| :: OccursAt(s, pattern, i)
  }

  const EndOfDay := " 23:59:00"

  /** `to_datetime`: appends the end-of-day time unless `23:59:00` already occurs, then parses. */
  function ToDatetime(date: string): (r: Result<DateTime>)
    ensures r.Err? ==> r.error == ValueError
  {
    var full := if Contains(date, "23:59:00") then date else date + EndOfDay;
    Parse(full)
  }

  /** The datetime `to_datetime` produces for a day: 23:59:00 on that day. */
  function EndOf(d: Date): DateTime {
    DateTime(d, 23, 59, 0)
  }

  lemma Pad2Digits(n: int)
    requires 0 <= n < 100
    ensures Digits2(Pad2(n), 0) == n
  {
  }

  lemma DigitsPad2(s: string, i: nat)
    requires i + 2 <= |s| && IsDigit(s[i]) && IsDigit(s[i + 1])
    ensures Pad2(Digits2(s, i)) == s[i..i + 2]
  {
  }

  lemma Pad4Digits(n: int)
    requires 0 <= n < 10000
    ensures Digits4(Pad4(n), 0) == n
  {
    Pad2Digits(n / 100);
    Pad2Digits(n % 100);
    assert Pad4(n)[2..] == Pad2(n % 100);
  }

  lemma DigitsPad4(s: string, i: nat)
    requires i + 4 <= |s| && forall k | i <= k < i + 4 :: IsDigit(s[k])
    ensures Pad4(Digits4(s, i)) == s[i..i + 4]
  {
    var n := Digits4(s, i);
    assert n / 100 == Digits2(s, i) && n % 100 == Digits2(s, i + 2);
    DigitsPad2(s, i);
    DigitsPad2(s, i + 2);
  }

  /** The full format of a valid datetime parses back to it. */
  lemma FormatParses(t: DateTime)
    requires ValidDateTime(t)
    ensures Shaped(Format(t)) && Parse(Format(t)) == Ok(t)
  {
    FormatShape(t);
    FormatFields(t);
  }

  /** The full format has the pattern `DDDD-DD-DD DD:DD:DD`. */
  lemma FormatShape(t: DateTime)
    ensures Shaped(Format(t))
  {
    var s, d := Format(t), ToTwint(t);
    assert forall k | 0 <= k < 10 :: s[k] == d[k];
  }

  /** The fields of the full format of a valid datetime spell it back. */
  lemma FormatFields(t: DateTime)
    requires ValidDateTime(t)
    ensures Shaped(Format(t))
    ensures var s := Format(t);
            Digits4(s, 0) == t.date.year && Digits2(s, 5) == t.date.month && Digits2(s, 8) == t.date.day &&
            Digits2(s, 11) == t.hour && Digits2(s, 14) == t.minute && Digits2(s, 17) == t.second
  {
    FormatShape(t);
    var s, d := Format(t), ToTwint(t);
    var h, m, c := Pad2(t.hour), Pad2(t.minute), Pad2(t.second);
    assert forall k | 0 <= k < 10 :: s[k] == d[k];
    assert s[11] == h[0] && s[12] == h[1] && s[14] == m[0] && s[15] == m[1] && s[17] == c[0] && s[18] == c[1];
    Pad2Digits(t.hour);
    Pad2Digits(t.minute);
    Pad2Digits(t.second);
  }

  /** A string `Parse` accepts is exactly the full format of its result. */
  lemma ParseIsFormat(s: string)
    requires Parse(s).Ok?
    ensures s == Format(Parse(s).value)
  {
    var t := Parse(s).value;
    TwintOfParse(s);
    DigitsPad2(s, 11);
    DigitsPad2(s, 14);
    DigitsPad2(s, 17);
    assert s == s[0..10] + " " + s[11..13] + ":" + s[14..16] + ":" + s[17..19];
  }

  /** The date part of a string `Parse` accepts is the day string of its result. */
  lemma TwintOfParse(s: string)
    requires Parse(s).Ok?
    ensures ToTwint(Parse(s).value) == s[0..10]
  {
    DigitsPad4(s, 0);
    DigitsPad2(s, 5);
    DigitsPad2(s, 8);
    assert s[0..10] == s[0..4] + "-" + s[5..7] + "-" + s[8..10];
  }

  /** A day string holds no colon, so it never contains `23:59:00`. */
  lemma TwintHasNoTime(t: DateTime)
    ensures !Contains(ToTwint(t), "23:59:00")
  {
    var s := ToTwint(t);
    forall i | 0 <= i <= |s| - 8
      ensures !OccursAt(s, "23:59:00", i)
    {
      assert s[i..i + 8][2] == s[i + 2] != ':';
    }
  }

  lemma FormatEndOf(d: Date)
    ensures Format(EndOf(d)) == ToTwint(EndOf(d)) + EndOfDay
  {
    assert Pad2(23) == "23" && Pad2(59) == "59" && Pad2(0) == "00";
  }

  lemma AcceptsDayStrings(s: string, t: DateTime)
    requires ValidDateTime(t) && t == EndOf(t.date) && (s == ToTwint(t) || s == ToTwint(t) + EndOfDay)
    ensures ToDatetime(s) == Ok(t)
  {
    FormatEndOf(t.date);
    FormatParses(t);
    if s == ToTwint(t) {
      TwintHasNoTime(t);
    } else {
      assert OccursAt(s, "23:59:00", 11);
    }
  }

  /** Where `23:59:00` can occur in a full-format string: only as its time. */
  lemma TimeOccursOnlyAsTime(s: string, i: int)
    requires Shaped(s) && 0 <= i <= |s| - 8 && OccursAt(s, "23:59:00", i)
    ensures i == 11 && s[11..13] == "23" && s[14..16] == "59" && s[17..19] == "00"
  {
    assert s[i..i + 8][2] == ':' && s[i..i + 8][5] == ':';
    assert i == 11;
    var w := s[11..19];
    assert w == "23:59:00";
    assert s[11] == w[0] && s[12] == w[1] && s[14] == w[3] && s[15] == w[4] && s[17] == w[6] && s[18] == w[7];
    assert s[11..13] == [s[11], s[12]] && s[14..16] == [s[14], s[15]] && s[17..19] == [s[17], s[18]];
  }

  lemma AcceptsOnlyDayStrings(s: string)
    requires ToDatetime(s).Ok?
    ensures var t := ToDatetime(s).value;
            ValidDateTime(t) && t == EndOf(t.date) && (s == ToTwint(t) || s == ToTwint(t) + EndOfDay)
  {
    var t := ToDatetime(s).value;
    var full := if Contains(s, "23:59:00") then s else s + EndOfDay;
    FullEndsTheDay(s);
    EndTime(full);
    ParseIsFormat(full);
    FormatEndOf(t.date);
    if !Contains(s, "23:59:00") {
      assert s == full[..|s|];
    }
  }

  /** The text `to_datetime` parses carries the time fields `23`, `59` and `00`. */
  lemma FullEndsTheDay(s: string)
    requires ToDatetime(s).Ok?
    ensures var full := if Contains(s, "23:59:00") then s else s + EndOfDay;
            Parse(full).Ok? && full[11..13] == "23" && full[14..16] == "59" && full[17..19] == "00"
  {
    var full := if Contains(s, "23:59:00") then s else s + EndOfDay;
    assert Parse(full).Ok?;
    assert Shaped(full);
    if Contains(s, "23:59:00") {
      var i :| 0 <= i <= |s| - 8 && OccursAt(s, "23:59:00", i);
      TimeOccursOnlyAsTime(s, i);
    } else {
      assert full[11..13] == "23" && full[14..16] == "59" && full[17..19] == "00";
    }
  }

  /** A parsed text whose time fields are `23`, `59` and `00` is 23:59:00 on its day. */
  lemma EndTime(full: string)
    requires Parse(full).Ok? && full[11..13] == "23" && full[14..16] == "59" && full[17..19] == "00"
    ensures Parse(full).value == EndOf(Parse(full).value.date)
  {
    assert full[11] == '2' && full[12] == '3' by { assert full[11..13][0] == full[11]; assert full[11..13][1] == full[12]; }
    assert full[14] == '5' && full[15] == '9' by { assert full[14..16][0] == full[14]; assert full[14..16][1] == full[15]; }
    assert full[17] == '0' && full[18] == '0' by { assert full[17..19][0] == full[17]; assert full[17..19][1] == full[18]; }
  }

  /**
   * `to_datetime` succeeds exactly on the day string of a valid date, alone or followed
   * by ` 23:59:00`, and then yields 23:59:00 on that day.
   */
  lemma ToDatetimeAccepts(s: string, t: DateTime)
    ensures ToDatetime(s) == Ok(t) <==>
              ValidDateTime(t) && t == EndOf(t.date) && (s == ToTwint(t) || s == ToTwint(t) + EndOfDay)
  {
    if ValidDateTime(t) && t == EndOf(t.date) && (s == ToTwint(t) || s == ToTwint(t) + EndOfDay) {
      AcceptsDayStrings(s, t);
    }
    if ToDatetime(s) == Ok(t) {
      AcceptsOnlyDayStrings(s);
    }
  }

  /** The pattern `DDDD-DD-DD` of a day string. */
  predicate IsDayString(s: string) {
    |s| == 10 &&
    forall k | 0 <= k < 10 :: if k == 4 || k == 7 then s[k] == '-' else IsDigit(s[k])
  }

  /**
   * A day string is accepted exactly when it names a valid date, and then `to_twint`
   * gives the same string back; month 13, 31 April or 29 February of a common year
   * are rejected.
   */
  lemma DayStringRoundTrip(s: string)
    requires IsDayString(s)
    ensures ToDatetime(s).Ok? <==> ValidDate(Date(Digits4(s, 0), Digits2(s, 5), Digits2(s, 8)))
    ensures ToDatetime(s).Ok? ==> ToTwint(ToDatetime(s).value) == s
  {
    var d := Date(Digits4(s, 0), Digits2(s, 5), Digits2(s, 8));
    DigitsPad4(s, 0);
    DigitsPad2(s, 5);
    DigitsPad2(s, 8);
    assert s == s[0..4] + "-" + s[5..7] + "-" + s[8..10];
    if ValidDate(d) {
      ToDatetimeAccepts(s, EndOf(d));
    }
    if ToDatetime(s).Ok? {
      var t := ToDatetime(s).value;
      ToDatetimeAccepts(s, t);
      assert s == ToTwint(t);
    }
  }

  /** `to_datetime(to_twint(t))` is 23:59:00 on the day of `t`; so it is `t` itself when `t` is at 23:59:00. */
  lemma TwintRoundTrip(t: DateTime)
    requires ValidDate(t.date)
    ensures ToDatetime(ToTwint(t)) == Ok(EndOf(t.date))
  {
    ToDatetimeAccepts(ToTwint(t), EndOf(t.date));
  }

  /** The doctests of `to_twint` and `to_datetime`. */
  lemma Examples()
    ensures ToTwint(DateTime(Date(2021, 1, 2), 23, 59, 0)) == "2021-01-02"
    ensures ToDatetime("2021-01-02") == Ok(DateTime(Date(2021, 1, 2), 23, 59, 0))
  {
    var t := DateTime(Date(2021, 1, 2), 23, 59, 0);
    assert Pad4(2021) == "2021" && Pad2(1) == "01" && Pad2(2) == "02";
    TwintRoundTrip(t);
  }

  lemma Pad2Less(x: int, y: int)
    requires 0 <= x < 100 && 0 <= y < 100
    ensures Less(Pad2(x), Pad2(y)) <==> x < y
  {
    var a, b := Pad2(x), Pad2(y);
    assert a[0] < b[0] <==> x / 10 < y / 10;
    assert a[0] == b[0] <==> x / 10 == y / 10;
    assert a[1] < b[1] <==> x % 10 < y % 10;
    assert x < y <==> x / 10 < y / 10 || (x / 10 == y / 10 && x % 10 < y % 10);
    if a[0] == b[0] {
      assert Less(a, b) == Less(a[1..], b[1..]);
      var c, d := a[1..], b[1..];
      assert |c| == 1 && |d| == 1 && c[0] == a[1] && d[0] == b[1];
      if c[0] == d[0] {
        assert c[1..] == [] && d[1..] == [];
      }
      assert Less(c, d) <==> a[1] < b[1];
    }
  }

  lemma Pad4Less(x: int, y: int)
    requires 0 <= x < 10000 && 0 <= y < 10000
    ensures Less(Pad4(x), Pad4(y)) <==> x < y
  {
    LessConcat(Pad2(x / 100), Pad2(x % 100), Pad2(y / 100), Pad2(y % 100));
    Pad2Less(x / 100, y / 100);
    Pad2Less(x % 100, y % 100);
    Pad2Digits(x / 100);
    Pad2Digits(y / 100);
  }

  /** For day strings, Python's string order is chronological order. */
  lemma TwintOrder(a: DateTime, b: DateTime)
    requires ValidDate(a.date) && ValidDate(b.date)
    ensures Less(ToTwint(a), ToTwint(b)) <==> Before(a.date, b.date)
  {
    var da, db := a.date, b.date;
    var ra := "-" + Pad2(da.month) + "-" + Pad2(da.day);
    var rb := "-" + Pad2(db.month) + "-" + Pad2(db.day);
    assert ToTwint(a) == Pad4(da.year) + ra && ToTwint(b) == Pad4(db.year) + rb;
    LessConcat(Pad4(da.year), ra, Pad4(db.year), rb);
    Pad4Less(da.year, db.year);
    Pad4Digits(da.year);
    Pad4Digits(db.year);
    var sa, sb := Pad2(da.month) + "-" + Pad2(da.day), Pad2(db.month) + "-" + Pad2(db.day);
    assert ra == "-" + sa && rb == "-" + sb;
    LessConcat("-", sa, "-", sb);
    LessIrreflexive("-");
    var ta, tb := "-" + Pad2(da.day), "-" + Pad2(db.day);
    assert sa == Pad2(da.month) + ta && sb == Pad2(db.month) + tb;
    LessConcat(Pad2(da.month), ta, Pad2(db.month), tb);
    Pad2Less(da.month, db.month);
    Pad2Digits(da.month);
    Pad2Digits(db.month);
    LessConcat("-", Pad2(da.day), "-", Pad2(db.day));
    Pad2Less(da.day, db.day);
  }
}
