/**
 * The series the plots are drawn from (plotly_data.py): the consecutive day strings of a
 * period, one emotion's values per day, the COVID values of the period, and the period
 * covered by a saved emotion table.
 */
module PlotlyData {
  import opened Wrappers
  import opened Text
  import opened Dicts
  import opened Calendar
  import opened TweetData
  import EmotionData

  // ---------------------------------------------------------------------------
  // get_desired_dates
  // ---------------------------------------------------------------------------

  /** How many days `get_desired_dates` covers: the whole days from start to end, plus one, and none when end is earlier. */
  function DesiredCount(start: DateTime, end: DateTime): nat {
    if DaysBetween(start, end) + 1 <= 0 then 0 else DaysBetween(start, end) + 1
  }

  /** The day strings `get_desired_dates` returns. */
  function DesiredDates(start: DateTime, end: DateTime): seq<string> {
    seq(DesiredCount(start, end), (i: int) requires 0 <= i => ToTwint(PlusDays(start, i)))
  }

  /** `get_desired_dates`: `to_twint(start_date + timedelta(n))` for each `n` of the range. */
  method GetDesiredDates(start: DateTime, end: DateTime) returns (desiredDates: seq<string>)
    ensures |desiredDates| == DesiredCount(start, end)
    ensures forall i | 0 <= i < |desiredDates| :: desiredDates[i] == ToTwint(PlusDays(start, i))
    ensures desiredDates == DesiredDates(start, end)
  {
    desiredDates := [];
    for n := 0 to DesiredCount(start, end)
      invariant |desiredDates| == n
      invariant forall i | 0 <= i < n :: desiredDates[i] == ToTwint(PlusDays(start, i))
    {
      desiredDates := desiredDates + [ToTwint(PlusDays(start, n))];
    }
  }

  lemma DesiredDatesAt(start: DateTime, end: DateTime, i: nat)
    requires i < DesiredCount(start, end)
    ensures |DesiredDates(start, end)| == DesiredCount(start, end)
    ensures DesiredDates(start, end)[i] == ToTwint(PlusDays(start, i))
  {
  }

  /**
   * There are `(end - start).days + 1` dates, none when `end` is earlier than `start`, and
   * at least one (the first being `start`'s day) otherwise.
   */
  lemma DesiredDatesCount(start: DateTime, end: DateTime)
    ensures Seconds(end) < Seconds(start) <==> |DesiredDates(start, end)| == 0
    ensures Seconds(end) >= Seconds(start) ==> |DesiredDates(start, end)| == DaysBetween(start, end) + 1
    ensures Seconds(end) >= Seconds(start) ==> DesiredDates(start, end)[0] == ToTwint(start)
  {
  }

  /** Every day of the range is a valid date, `i` days after `start`'s day, and no later than `end`'s. */
  lemma DesiredDaysValid(start: DateTime, end: DateTime, i: nat)
    requires ValidDateTime(start) && ValidDateTime(end) && i < DesiredCount(start, end)
    ensures ValidDate(PlusDays(start, i).date)
    ensures Ordinal(PlusDays(start, i).date) == Ordinal(start.date) + i <= Ordinal(end.date)
  {
    DaysBetweenBound(start, end);
    OrdinalAtMostLast(end.date);
    AddDaysOrdinal(start.date, i);
  }

  /** Neighbouring dates are consecutive days. */
  lemma DesiredDatesConsecutive(start: DateTime, end: DateTime, i: nat)
    requires ValidDateTime(start) && ValidDateTime(end) && i + 1 < DesiredCount(start, end)
    ensures PlusDays(start, i + 1).date == NextDay(PlusDays(start, i).date)
    ensures Ordinal(PlusDays(start, i + 1).date) == Ordinal(PlusDays(start, i).date) + 1
  {
    DesiredDaysValid(start, end, i);
    DesiredDaysValid(start, end, i + 1);
  }

  /** The dates are strictly increasing as strings, hence distinct. */
  lemma DesiredDatesIncreasing(start: DateTime, end: DateTime, i: nat, j: nat)
    requires ValidDateTime(start) && ValidDateTime(end) && i < j < DesiredCount(start, end)
    ensures Less(DesiredDates(start, end)[i], DesiredDates(start, end)[j])
    ensures DesiredDates(start, end)[i] != DesiredDates(start, end)[j]
  {
    DesiredDaysValid(start, end, i);
    DesiredDaysValid(start, end, j);
    var a, b := PlusDays(start, i), PlusDays(start, j);
    BeforeOrdinal(a.date, b.date);
    TwintOrder(a, b);
    LessIrreflexive(ToTwint(a));
  }

  /** When `start` and `end` share a time of day, there is one date per day from `start`'s to `end`'s. */
  lemma SameTimeCount(start: DateTime, end: DateTime)
    requires ValidDateTime(start) && ValidDateTime(end) && !Before(end.date, start.date)
    requires start.hour == end.hour && start.minute == end.minute && start.second == end.second
    ensures Ordinal(start.date) <= Ordinal(end.date)
    ensures DesiredCount(start, end) == Ordinal(end.date) - Ordinal(start.date) + 1
  {
    BeforeOrdinal(end.date, start.date);
    DaysBetweenSameTime(start, end);
  }

  /** Moving `start` forward by the ordinal difference reaches `end` when the times agree. */
  lemma SameTimeReachesEnd(start: DateTime, end: DateTime)
    requires ValidDateTime(start) && ValidDateTime(end) && Ordinal(start.date) <= Ordinal(end.date)
    requires start.hour == end.hour && start.minute == end.minute && start.second == end.second
    ensures PlusDays(start, Ordinal(end.date) - Ordinal(start.date)) == end
  {
    var n := Ordinal(end.date) - Ordinal(start.date);
    OrdinalAtMostLast(end.date);
    AddDaysOrdinal(start.date, n);
    OrdinalInjective(AddDays(start.date, n), end.date);
  }

  /** ... and the last date is `end`'s day. */
  lemma DesiredDatesLast(start: DateTime, end: DateTime)
    requires ValidDateTime(start) && ValidDateTime(end) && Ordinal(start.date) <= Ordinal(end.date)
    requires start.hour == end.hour && start.minute == end.minute && start.second == end.second
    ensures |DesiredDates(start, end)| == Ordinal(end.date) - Ordinal(start.date) + 1
    ensures DesiredDates(start, end)[Ordinal(end.date) - Ordinal(start.date)] == ToTwint(end)
  {
    BeforeOrdinal(end.date, start.date);
    SameTimeCount(start, end);
    SameTimeReachesEnd(start, end);
    DesiredDatesAt(start, end, Ordinal(end.date) - Ordinal(start.date));
  }

  // ---------------------------------------------------------------------------
  // get_emotion_by_day
  // ---------------------------------------------------------------------------

  /**
   * `get_emotion_by_day`: the chosen emotion of each day, in the table's key order; a day
   * without that emotion raises KeyError.
   */
  method GetEmotionByDay(tweetData: Dict<string, map<string, int>>, chosenEmotion: string) returns (r: Result<seq<int>>)
    requires tweetData.Valid()
    ensures r.Ok? <==> forall i | 0 <= i < |tweetData.keys| :: chosenEmotion in tweetData.items[tweetData.keys[i]]
    ensures r.Err? ==> r.error == KeyError
    ensures r.Ok? ==> |r.value| == |tweetData.keys|
    ensures r.Ok? ==> forall i | 0 <= i < |tweetData.keys| :: r.value[i] == tweetData.items[tweetData.keys[i]][chosenEmotion]
  {
    var emotionByDay: seq<int> := [];
    for i := 0 to |tweetData.keys|
      invariant |emotionByDay| == i
      invariant forall j | 0 <= j < i :: chosenEmotion in tweetData.items[tweetData.keys[j]]
      invariant forall j | 0 <= j < i :: emotionByDay[j] == tweetData.items[tweetData.keys[j]][chosenEmotion]
    {
      var day := tweetData.items[tweetData.keys[i]];
      if chosenEmotion !in day {
        return Err(KeyError);
      }
      emotionByDay := emotionByDay + [day[chosenEmotion]];
    }
    r := Ok(emotionByDay);
  }

  /** The week of vectors built from tweets always has every one of the ten emotions. */
  lemma WeekHasEveryEmotion(lex: EmotionData.Lexicon, similar: (string, string) -> bool,
                            days: seq<(DateTime, seq<string>)>, chosenEmotion: string)
    requires lex.Valid() && EmotionData.WeekToEmotion(lex, similar, days).Ok? && chosenEmotion in EmotionData.Emotions
    ensures var week := EmotionData.WeekToEmotion(lex, similar, days).value;
            week.Valid() && forall i | 0 <= i < |week.keys| :: chosenEmotion in week.items[week.keys[i]]
  {
    EmotionData.WeekKeysFromDays(lex, similar, days);
    EmotionData.WeekVectors(lex, similar, days);
  }

  // ---------------------------------------------------------------------------
  // get_covid_data: the selection loop
  // ---------------------------------------------------------------------------

  /**
   * The selection of `get_covid_data` from the processed table (date -> header -> value):
   * one value per desired date, in order; a missing date or header raises KeyError.
   */
  method GetCovidData(start: DateTime, end: DateTime, covidData: map<string, map<string, int>>, chosenCovidData: string)
    returns (r: Result<seq<int>>)
    ensures var dates := DesiredDates(start, end);
            r.Ok? <==> forall i | 0 <= i < |dates| :: dates[i] in covidData && chosenCovidData in covidData[dates[i]]
    ensures r.Err? ==> r.error == KeyError
    ensures r.Ok? ==> |r.value| == |DesiredDates(start, end)|
    ensures var dates := DesiredDates(start, end);
            r.Ok? ==> forall i | 0 <= i < |dates| :: r.value[i] == covidData[dates[i]][chosenCovidData]
  {
    var desiredDates := GetDesiredDates(start, end);
    var covidDataByDay: seq<int> := [];
    for i := 0 to |desiredDates|
      invariant |covidDataByDay| == i
      invariant forall j | 0 <= j < i :: desiredDates[j] in covidData && chosenCovidData in covidData[desiredDates[j]]
      invariant forall j | 0 <= j < i :: covidDataByDay[j] == covidData[desiredDates[j]][chosenCovidData]
    {
      var date := desiredDates[i];
      if date !in covidData || chosenCovidData !in covidData[date] {
        return Err(KeyError);
      }
      covidDataByDay := covidDataByDay + [covidData[date][chosenCovidData]];
    }
    r := Ok(covidDataByDay);
  }

  // ---------------------------------------------------------------------------
  // get_emotion_from_file: the period of a saved table
  // ---------------------------------------------------------------------------

  /** Python's `min` over a non-empty sequence of strings. */
  function Smallest(keys: seq<string>): string
    requires |keys| > 0
  {
    if |keys| == 1 then keys[0]
    else
      var m := Smallest(keys[..|keys| - 1]);
      if Less(keys[|keys| - 1], m) then keys[|keys| - 1] else m
  }

  /** Python's `max` over a non-empty sequence of strings. */
  function Largest(keys: seq<string>): string
    requires |keys| > 0
  {
    if |keys| == 1 then keys[0]
    else
      var m := Largest(keys[..|keys| - 1]);
      if Less(m, keys[|keys| - 1]) then keys[|keys| - 1] else m
  }

  /** `min` returns one of the keys, and every other key is greater. */
  lemma {:induction false} SmallestIsLeast(keys: seq<string>)
    requires |keys| > 0
    ensures Smallest(keys) in keys
    ensures forall k | k in keys :: k == Smallest(keys) || Less(Smallest(keys), k)
  {
    if |keys| > 1 {
      var p, x := keys[..|keys| - 1], keys[|keys| - 1];
      SmallestIsLeast(p);
      var m := Smallest(p);
      assert keys == p + [x];
      if x != m {
        LessTotal(x, m);
      }
      forall k | k in p && k != Smallest(keys)
        ensures Less(Smallest(keys), k)
      {
        if Less(x, m) && k != m {
          LessTransitive(x, m, k);
        }
      }
    }
  }

  /** `max` returns one of the keys, and every other key is smaller. */
  lemma {:induction false} LargestIsGreatest(keys: seq<string>)
    requires |keys| > 0
    ensures Largest(keys) in keys
    ensures forall k | k in keys :: k == Largest(keys) || Less(k, Largest(keys))
  {
    if |keys| > 1 {
      var p, x := keys[..|keys| - 1], keys[|keys| - 1];
      LargestIsGreatest(p);
      var m := Largest(p);
      assert keys == p + [x];
      if x != m {
        LessTotal(x, m);
      }
      forall k | k in p && k != Largest(keys)
        ensures Less(k, Largest(keys))
      {
        if Less(m, x) && k != m {
          LessTransitive(k, m, x);
        }
      }
    }
  }

  /** The loop behind `min`. */
  method Min(keys: seq<string>) returns (m: string)
    requires |keys| > 0
    ensures m == Smallest(keys)
  {
    m := keys[0];
    for i := 1 to |keys|
      invariant m == Smallest(keys[..i])
    {
      assert keys[..i + 1][..i] == keys[..i];
      if Less(keys[i], m) {
        m := keys[i];
      }
    }
    assert keys[..|keys|] == keys;
  }

  /** The loop behind `max`. */
  method Max(keys: seq<string>) returns (m: string)
    requires |keys| > 0
    ensures m == Largest(keys)
  {
    m := keys[0];
    for i := 1 to |keys|
      invariant m == Largest(keys[..i])
    {
      assert keys[..i + 1][..i] == keys[..i];
      if Less(m, keys[i]) {
        m := keys[i];
      }
    }
    assert keys[..|keys|] == keys;
  }

  /**
   * `get_emotion_from_file` over a given table: the chosen emotion of each day, then the
   * smallest and largest day keys read back as datetimes. A day without the emotion raises
   * KeyError, an empty table ValueError (from `min`), and a key `to_datetime` rejects its error.
   */
  method GetEmotionFromFile(emotionData: Dict<string, map<string, int>>, chosenEmotion: string)
    returns (r: Result<(DateTime, DateTime, seq<int>)>)
    requires emotionData.Valid()
    ensures (exists i | 0 <= i < |emotionData.keys| :: chosenEmotion !in emotionData.items[emotionData.keys[i]]) ==>
              r == Err(KeyError)
    ensures |emotionData.keys| == 0 ==> r == Err(ValueError)
    ensures (forall i | 0 <= i < |emotionData.keys| :: chosenEmotion in emotionData.items[emotionData.keys[i]]) &&
            |emotionData.keys| > 0 &&
            !(ToDatetime(Smallest(emotionData.keys)).Ok? && ToDatetime(Largest(emotionData.keys)).Ok?) ==>
              r == Err(ValueError)
    ensures r.Ok? <==>
              (forall i | 0 <= i < |emotionData.keys| :: chosenEmotion in emotionData.items[emotionData.keys[i]]) &&
              |emotionData.keys| > 0 &&
              ToDatetime(Smallest(emotionData.keys)).Ok? && ToDatetime(Largest(emotionData.keys)).Ok?
    ensures r.Ok? ==>
              r.value.0 == ToDatetime(Smallest(emotionData.keys)).value &&
              r.value.1 == ToDatetime(Largest(emotionData.keys)).value &&
              |r.value.2| == |emotionData.keys| &&
              forall i | 0 <= i < |emotionData.keys| :: r.value.2[i] == emotionData.items[emotionData.keys[i]][chosenEmotion]
  {
    var emotionByDay := GetEmotionByDay(emotionData, chosenEmotion);
    if emotionByDay.Err? {
      return Err(emotionByDay.error);
    }
    if |emotionData.keys| == 0 {
      return Err(ValueError);
    }
    var first := Min(emotionData.keys);
    var start := ToDatetime(first);
    if start.Err? {
      return Err(start.error);
    }
    var last := Max(emotionData.keys);
    var end := ToDatetime(last);
    if end.Err? {
      return Err(end.error);
    }
    r := Ok((start.value, end.value, emotionByDay.value));
  }

  /**
   * For a table keyed by valid `YYYY-MM-DD` strings, the smallest key is the earliest
   * day and the largest the latest: string order is chronological order.
   */
  lemma PeriodOfDayKeys(keys: seq<string>)
    requires |keys| > 0
    requires forall k | k in keys :: IsDayString(k) && ToDatetime(k).Ok?
    ensures Smallest(keys) in keys && Largest(keys) in keys
    ensures forall k | k in keys ::
              ToDatetime(k).value.date == ToDatetime(Smallest(keys)).value.date ||
              Before(ToDatetime(Smallest(keys)).value.date, ToDatetime(k).value.date)
    ensures forall k | k in keys ::
              ToDatetime(k).value.date == ToDatetime(Largest(keys)).value.date ||
              Before(ToDatetime(k).value.date, ToDatetime(Largest(keys)).value.date)
  {
    SmallestIsLeast(keys);
    LargestIsGreatest(keys);
    var lo, hi := Smallest(keys), Largest(keys);
    forall k | k in keys
      ensures ToDatetime(k).value.date == ToDatetime(lo).value.date ||
              Before(ToDatetime(lo).value.date, ToDatetime(k).value.date)
      ensures ToDatetime(k).value.date == ToDatetime(hi).value.date ||
              Before(ToDatetime(k).value.date, ToDatetime(hi).value.date)
    {
      DayStringRoundTrip(k);
      DayStringRoundTrip(lo);
      DayStringRoundTrip(hi);
      TwintOrder(ToDatetime(lo).value, ToDatetime(k).value);
      TwintOrder(ToDatetime(k).value, ToDatetime(hi).value);
    }
  }
}
