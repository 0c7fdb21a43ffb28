# COVID Sentimentality core, modelled in Dafny

COVID Sentimentality compares the emotions of tweets about COVID-19 with the
Our World in Data COVID-19 figures over a period of days. Its core has four
small sequential parts, and this project models each one and proves properties
of it:

- **Emotion scoring** (`emotion_data.py`, module `EmotionData`).
  - Loading the NRC word-emotion lexicon from its rows into an insertion-ordered dictionary.
  - Tokenising a tweet into its space-separated words, with every non-letter deleted first.
  - Folding a day's tokens into a ten-emotion vector. The loop is modelled exactly as the
    code runs it: a lexicon word adds its own entry. An unknown word adds the entry of the
    LAST lexicon word similar to it. Failing that, it re-adds the previous token's entry.
  - Keying each day's vector by its `YYYY-MM-DD` string.
- **COVID per-date aggregation** (`covid_data.py`, module `CovidData`).
  - Renaming headers with `pretty`: underscores become spaces, then the header is title-cased.
  - Folding the rows of a table into date → renamed numeric header → sum of non-null values,
    behind the `overwrite` gate.
- **Date strings** (`tweet_data.py`, module `TweetData`).
  - `to_twint` formats a datetime as `YYYY-MM-DD`.
  - `to_datetime` parses such a string back to 23:59:00 on that day.
- **Series selection** (`plotly_data.py`, module `PlotlyData`).
  - The consecutive day strings of a period.
  - One emotion per day.
  - The COVID values of the period.
  - The first and last day of a saved emotion table.

Supporting modules:

- `Wrappers`: Option, Result and the Python exceptions raised.
- `Text`: ASCII character classes, Python's string `<` and `' '.join`.
- `Dicts`: a Python dictionary with its insertion order.
- `Calendar`: the part of Python's `datetime` in use, namely proleptic Gregorian ordinals,
  adding days and `timedelta.days`.

Code that changes state step by step is modelled as methods with loops:
`get_lexicon_data`, `daily_average_emotions`, `total_average_emotions_per_tweet`,
`date_to_row`, `get_desired_dates`, `get_emotion_by_day`, the `get_covid_data`
selection, and `min`/`max`. Each method is proved equal to a specification
function (`LexiconOf`, `DailyEmotions`, `WeekToEmotion`, `DatesDict`,
`DesiredDates`, `Smallest`, `Largest`) or states its result outright. The
properties are then proved about those functions.

Where the documentation and the code disagree, the model follows the code:

- `clean_text` keeps letter case, although its comment promises lowercase words.
- `daily_average_emotions` sums the entries with no division by the number of words,
  although its comment speaks of an average.
- The similarity threshold (`> 0.80`) sits inside the `similar` parameter.
- A token never resets `word_lexicon`.
- There is no tally of unmatched words.

`EmotionData.CarryOverExample` shows the resulting difference on a concrete list of tokens.

## Model

| member | source | states |
|---|---|---|
| Text.ToUpper | covid_data.py:22 | ASCII `str.upper` on one character: a lower-case letter becomes the same letter in upper case (code point minus 32), anything else is unchanged |
| Text.ToLower | covid_data.py:22 | ASCII `str.lower` on one character: an upper-case letter becomes the same letter in lower case (code point plus 32), anything else is unchanged |
| Text.LessIrreflexive | plotly_data.py:44-45 | Python's string `<` is irreflexive |
| Text.LessTransitive | plotly_data.py:44-45 | Python's string `<` is transitive |
| Text.LessTotal | plotly_data.py:44-45 | of two different strings one is `<` the other, so `min`/`max` are well defined |
| Text.LessConcat | plotly_data.py:44-45 | comparing strings whose prefixes have equal length compares the prefixes first, then the rest |
| Dicts.Empty | emotion_data.py:15 | `{}` has no keys |
| Dicts.Put | emotion_data.py:19-21 | `d[k] = v` sets the value, appends a new key at the end of the iteration order, keeps an existing key in place, and keeps the keys distinct |
| Dicts.PutTwice | covid_data.py:46-48 | storing twice under one key keeps the second value, in the first one's place |
| Calendar.DaysInMonth | tweet_data.py:30 | Gregorian month lengths, between 28 and 31 |
| Calendar.NextDayOrdinal | plotly_data.py:55 | the next day has the next ordinal, comes later, and is a valid date unless the day is `date.max` |
| Calendar.OrdinalWithinYear | plotly_data.py:55 | a valid date's ordinal falls within its year's range of ordinals |
| Calendar.BeforeOrdinal | plotly_data.py:54-55 | chronological order of valid dates is the order of their ordinals, in both directions |
| Calendar.OrdinalInjective | plotly_data.py:55 | two valid dates with the same ordinal are the same date |
| Calendar.OrdinalAtMostLast | plotly_data.py:55 | no valid date lies beyond `date.max` |
| Calendar.AddDaysOrdinal | plotly_data.py:55 | `d + timedelta(n)` within range is a valid date exactly `n` ordinals later |
| Calendar.DaysBetweenSameTime | plotly_data.py:54 | for two datetimes with the same time of day, `(end - start).days` is the difference of the ordinals |
| Calendar.DaysBetweenBound | plotly_data.py:54 | `(end - start).days` never exceeds the ordinal difference of the dates |
| TweetData.ToTwint | tweet_data.py:13-19 | `to_twint` gives ten characters `DDDD-DD-DD` whose digits spell the year, month and day of a valid date, and drops the time of day |
| TweetData.Parse | tweet_data.py:30 | `strptime` with `%Y-%m-%d %H:%M:%S` only ever returns a valid datetime, and every failure is ValueError |
| TweetData.FormatParses | tweet_data.py:30 | a valid datetime's canonical text parses back to the same datetime |
| TweetData.ParseIsFormat | tweet_data.py:30 | every text that parses is the canonical text of its result |
| TweetData.TwintHasNoTime | tweet_data.py:28-29 | a `to_twint` string never contains `23:59:00`, so `to_datetime` always appends the time to it |
| TweetData.AcceptsDayStrings | tweet_data.py:25-30 | both `YYYY-MM-DD` and `YYYY-MM-DD 23:59:00` of a valid date are read as 23:59:00 on that day |
| TweetData.AcceptsOnlyDayStrings | tweet_data.py:25-30 | whatever `to_datetime` accepts is one of those two strings of a valid date, at 23:59:00 |
| TweetData.ToDatetimeAccepts | tweet_data.py:22-30 | `to_datetime(s)` returns `t` if and only if `t` is 23:59:00 on a valid day and `s` is that day's string, with or without ` 23:59:00`; everything else raises ValueError |
| TweetData.DayStringRoundTrip | tweet_data.py:16-30 | a `DDDD-DD-DD` string is accepted exactly when it names a valid date, so month 13, 31 April and 29 February of a common year are rejected; when accepted, `to_twint(to_datetime(s)) == s` |
| TweetData.TwintRoundTrip | tweet_data.py:16-30 | `to_datetime(to_twint(t))` is 23:59:00 on `t`'s day, so it gives back any `t` at 23:59:00 |
| TweetData.Examples | tweet_data.py:16-26 | the two doctests |
| TweetData.TwintOrder | plotly_data.py:44-45 | for valid dates, `to_twint` strings compare with `<` exactly as the dates compare chronologically |
| EmotionData.CleanTextTokens | emotion_data.py:26-29 | every token of `clean_text` is a non-empty string of letters, and the tokens spell out the tweet's letters in order, with their case unchanged |
| EmotionData.CleanTextAtSpace | emotion_data.py:26-29 | tokens split at spaces: `clean_text(a + ' ' + b)` is the tokens of `a` followed by the tokens of `b` |
| EmotionData.CleanTextNoSpace | emotion_data.py:26-29 | a stretch without spaces is exactly one token, its letters with every non-letter deleted, or no token when it has no letter |
| EmotionData.CleanTextExample | emotion_data.py:26-29 | `clean_text("don't go") == ["dont", "go"]`: deleting the apostrophe joins the letters around it |
| EmotionData.CleanTextIdempotent | emotion_data.py:26-29 | re-cleaning the tokens joined by single spaces gives the same tokens |
| EmotionData.GetLexiconData | emotion_data.py:10-23 | the loop over the rows builds `LexiconOf(rows)` |
| EmotionData.LexiconValid | emotion_data.py:15-21 | the result is a well-formed dictionary: distinct keys, each with a value |
| EmotionData.LexiconWords | emotion_data.py:17-21 | the words of the lexicon are exactly the words of the rows |
| EmotionData.LexiconEmotions | emotion_data.py:17-21 | a word's entry holds exactly the emotions that occur with it in the rows |
| EmotionData.LexiconEntry | emotion_data.py:17-21 | for a repeated (word, emotion) pair, the value of the last row wins |
| EmotionData.LexiconOrder | emotion_data.py:19-20 | the words are iterated in the order of their first rows |
| EmotionData.AccumulateEntry | emotion_data.py:55-56 | adding an entry into the vector succeeds exactly when all its keys are already there; it then adds each value and keeps the keys, and otherwise raises KeyError |
| EmotionData.LookUp | emotion_data.py:48-53 | the fuzzy loop leaves `Select(...)`: the exact entry, else the entry of the last similar lexicon word, else the previous entry |
| EmotionData.LastSimilarIsLast | emotion_data.py:51-53 | the loop never breaks, so the LAST similar word in iteration order wins; with no similar word the previous entry stays |
| EmotionData.DailyAverageEmotions | emotion_data.py:32-58 | the nested loops compute `DailyEmotions`; the result carries the input day and exactly the ten emotions, and is all zero when there are no tokens |
| EmotionData.ScoreShape | emotion_data.py:42-56 | while no error is raised, the vector keeps exactly the ten emotion keys |
| EmotionData.DailyShape | emotion_data.py:39-45 | a day's result pairs the input day with a ten-key vector, all zero for a day without tokens |
| EmotionData.SimilarTokenAddsLastSimilar | emotion_data.py:50-56 | a token that is no lexicon word but is similar to some adds the entry of the last similar word in key order, and makes it the current entry, or raises KeyError if that entry has a key outside the ten emotions |
| EmotionData.ScoreErrorPersists | emotion_data.py:55-56 | once KeyError is raised, the remaining tokens do not matter |
| EmotionData.ScoreTweet | emotion_data.py:46-56 | the inner loop over one tweet's words extends the running result to exactly the result for the tokens so far followed by that tweet's words, and stops at the first KeyError |
| EmotionData.ErrorInTweet | emotion_data.py:45-56 | once the tokens up to tweet `i` raise a KeyError, that error is the outcome of the whole day, whatever the later tweets hold |
| EmotionData.ExactTokenAddsEntry | emotion_data.py:48-56 | a token that is a lexicon word adds exactly its entry and makes it the current entry, or raises KeyError if the entry has a key outside the ten emotions |
| EmotionData.UnmatchedRepeatsPrevious | emotion_data.py:40-56 | a token that is no lexicon word and similar to none adds the previous token's entry again, and adds nothing while no entry has been selected |
| EmotionData.BadEntryRaises | emotion_data.py:55-56 | a lexicon entry with a key outside the ten emotions makes the whole day raise KeyError |
| EmotionData.ExactMatchSum | emotion_data.py:48-56 | with exact matches only, each emotion is the sum of that emotion over the tokens' entries |
| EmotionData.EntrySumPermutation | emotion_data.py:55-56 | those sums depend only on the multiset of tokens |
| EmotionData.ExactMatchOrderIndependent | emotion_data.py:45-56 | with exact matches only, reordering the tokens gives the same vector |
| EmotionData.ScoreWellFormed | emotion_data.py:42-56 | if every entry uses only the ten emotions and no negative value, the day never raises and every component is at least 0 |
| EmotionData.ScoreMonotone | emotion_data.py:45-56 | over such a lexicon, no component ever decreases as tokens are read |
| EmotionData.CarryOverExample | emotion_data.py:40-56 | with "happy" (joy 1) the only lexicon word and nothing similar, the tokens `I am happy today so happy` give joy 4, not 2 |
| EmotionData.TotalAverageEmotionsPerTweet | emotion_data.py:61-73 | the loop over the day tuples computes `WeekToEmotion`: each day's vector is stored under `to_twint(day)`, and a day's error propagates |
| EmotionData.WeekErrorPersists | emotion_data.py:69-70 | if any one day raises, the whole week raises |
| EmotionData.FoldOk | emotion_data.py:69-71 | folding the day results succeeds exactly when every day result is `Ok` |
| EmotionData.WeekOk | emotion_data.py:69-71 | the week succeeds exactly when every day does |
| EmotionData.WeekKeysFromDays | emotion_data.py:69-71 | every key of the result is `to_twint` of some input day, and the dictionary is well formed |
| EmotionData.WeekKeysCoverDays | emotion_data.py:69-71 | `to_twint` of every input day is a key |
| EmotionData.WeekValues | emotion_data.py:69-71 | each key holds the vector of the last tuple with that date: a later tuple overwrites an earlier one |
| EmotionData.WeekVectors | emotion_data.py:42-71 | every stored vector has exactly the ten emotions |
| CovidData.SplitJoinReplaces | covid_data.py:22 | `' '.join(h.split('_'))` keeps the length and turns each `_` into a space |
| CovidData.TitleChars | covid_data.py:22 | `title()` keeps the length and lowers a letter exactly when the character before it is a letter |
| CovidData.PrettyChars | covid_data.py:16-22 | `pretty` keeps the length; each `_` becomes a space, the first letter of each run of letters is raised, the others are lowered, and other characters are kept |
| CovidData.PrettyHasNoUnderscore | covid_data.py:22 | no `_` survives `pretty` |
| CovidData.PrettyIdempotent | covid_data.py:22 | `pretty(pretty(h)) == pretty(h)` |
| CovidData.PrettyNewCases | covid_data.py:22 | `pretty('new_cases') == 'New Cases'` |
| CovidData.PrettyAfterDigit | covid_data.py:22 | digits are not cased, so a letter after a digit is raised |
| CovidData.NewDateRow | covid_data.py:40-44 | a new date's map holds exactly the renamed numeric headers, each at 0 |
| CovidData.AddRow | covid_data.py:46-48 | adding a row's non-null numeric values never raises, because every key is present, and keeps the keys |
| CovidData.AddDateRow | covid_data.py:38-48 | one row's pass creates the date's all-zero map when the date is new and adds the row's numeric values, or leaves the dictionary alone when the row is skipped |
| CovidData.DateToRow | covid_data.py:34-60 | the nested loops compute `DatesDict` |
| CovidData.DatesStepValue | covid_data.py:38-48 | one row changes only its own date's values, each by that header's value in the row, and only when the row passes the gate |
| CovidData.ZeroRowKeys | covid_data.py:42-44 | the zero row has exactly the renamed numeric headers, all 0 |
| CovidData.AddRowValuesSum | covid_data.py:46-48 | after a row, each key's value is its old value plus the row's non-null values under headers renamed to that key |
| CovidData.DatesInnerKeys | covid_data.py:37-48 | every date of the result maps exactly the renamed numeric headers |
| CovidData.DatesKeys | covid_data.py:37-41 | a date is in the result if and only if some row with that date passes the `overwrite` gate |
| CovidData.NoProcessedDate | covid_data.py:38 | without `overwrite`, no date already among the processed columns appears |
| CovidData.DatesValues | covid_data.py:37-48 | each value is the sum of the header's non-null values over the date's rows that pass the gate |
| CovidData.OverwriteProcessedCovidData | covid_data.py:69-76 | with an empty history and `overwrite` set, the dates of the result are exactly the dates of the rows |
| CovidData.UpdateProcessedCovidData | covid_data.py:79-87 | only dates that are not yet processed are computed |
| PlotlyData.GetDesiredDates | plotly_data.py:50-56 | the loop returns `(end - start).days + 1` strings (none if that is not positive), and element `i` is `to_twint(start + i days)` |
| PlotlyData.DesiredDatesCount | plotly_data.py:54-55 | there are no dates exactly when `end` is before `start`; otherwise there are `(end - start).days + 1` and the first is `start`'s day |
| PlotlyData.DesiredDaysValid | plotly_data.py:55 | every day of the range is a valid date `i` days after `start`'s, never after `end`'s, so `start + timedelta(n)` never overflows |
| PlotlyData.DesiredDatesConsecutive | plotly_data.py:54-55 | neighbouring dates are consecutive calendar days |
| PlotlyData.DesiredDatesIncreasing | plotly_data.py:54-55 | the dates are strictly increasing as strings, hence distinct |
| PlotlyData.SameTimeCount | plotly_data.py:54 | when `start` and `end` share a time of day, there is one date per day from `start`'s to `end`'s |
| PlotlyData.DesiredDatesLast | plotly_data.py:54-55 | when `start` and `end` share a time of day, the last date is `to_twint(end)` |
| PlotlyData.GetEmotionByDay | plotly_data.py:26-32 | one value per day key, in the dictionary's order, with element `i` the chosen emotion of day `i`; KeyError exactly when some day lacks the emotion |
| PlotlyData.WeekHasEveryEmotion | plotly_data.py:26-32 | on a table built by `total_average_emotions_per_tweet`, every one of the ten emotions can be selected without error |
| PlotlyData.GetCovidData | plotly_data.py:59-67 | one value per desired date, in order; KeyError exactly when a date or the metric is missing from the table |
| PlotlyData.SmallestIsLeast | plotly_data.py:44 | `min` returns one of the keys, and every other key is greater |
| PlotlyData.LargestIsGreatest | plotly_data.py:45 | `max` returns one of the keys, and every other key is smaller |
| PlotlyData.Min | plotly_data.py:44 | the loop behind `min` computes `Smallest` |
| PlotlyData.Max | plotly_data.py:45 | the loop behind `max` computes `Largest` |
| PlotlyData.GetEmotionFromFile | plotly_data.py:35-47 | the outcome is KeyError if a day lacks the emotion, ValueError (from `min`) for an empty table, and ValueError when `to_datetime` rejects the smallest or the largest key. Otherwise it is `to_datetime` of the smallest and the largest key with the emotion series |
| PlotlyData.PeriodOfDayKeys | plotly_data.py:44-45 | for valid `YYYY-MM-DD` keys, the smallest key is the earliest day and the largest key is the latest day |

## Left out

- Network access is not modelled:
  - the download in `get_covid_data` (covid_data.py:9-13);
  - the tweet scraping with its retries (tweet_data.py:33-84);
  - `get_emotion` (plotly_data.py:17-23), which scrapes tweets and calls a `total_emotions` that does not exist.
- File I/O is not modelled:
  - the lexicon file read, so the rows are a parameter;
  - `save_to_raw_data` and `pull_from_raw_data`, so the saved table is a parameter;
  - `process_data` and the table read of `get_covid_data`, so the processed table is a parameter;
  - the CSV branch and merge of `date_to_row` (covid_data.py:50-58);
  - the module-level CSV read of plotly_data.py:14.
- Jaro-Winkler similarity is a foreign floating-point library. It is the parameter
  `similar`, which stands for "similarity above 0.80".
- Plotting (plotly_data.py:70-145) and main.py are user interface. main.py imports a
  function that does not exist.
- pandas internals are not modelled:
  - A table is a sequence of rows, each with a date and a header → optional value map.
  - The set of numeric (non-`object`) headers is given rather than computed from `dtypes`.
  - The date column is a field of the row, not a header.
- Floating-point values: lexicon values and COVID figures are integers, so float rounding is not modelled.
- Unicode: `isalpha`, `upper`, `lower` and `title` are modelled for ASCII only. Other characters count as non-letters and keep their case.
- `strptime` leniency: only the zero-padded format is modelled. `strptime` also accepts forms such as `2021-1-2`, and the model rejects them.
- Dates are limited to years 1-9999, written with four digits. Platform-dependent `%Y` padding for years below 1000 is not modelled.
- Datetimes have no microseconds or time zones.
- Exceptions carry no payload: KeyError does not name its key.
- EmotionData.AccumulateEntry: the order in which `for key in word_lexicon` adds keys is not modelled. The entry and the vector are unordered maps. Only the outcome is modelled: all keys are added, or KeyError is raised and the partial vector is discarded with the exception.
- CovidData.DateToRow: the date's inner dictionary is not updated in place. A new map is stored back under the date, which gives the same dictionary contents. The order of the renamed headers within a date's map is not modelled.
- CovidData.PrettyChars: the documented precondition `header != ''` is not required, because `pretty('')` returns `''`.
