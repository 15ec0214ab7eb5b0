# WhatsApp chat analyser — a Dafny model

This project models the core of a small WhatsApp chat analyser. Two parts are covered.

- `preprocess` (preprocessor.py) turns an exported chat transcript into a table with one row per message.
- The queries of helper.py read that table: message, word, media and link counts; the busiest users; the most common words and the word-cloud text; emoji counts; monthly and daily timelines; week-day and month activity; and the day-by-period heatmap.

The modules, in dependency order:

- `Wrappers` (wrappers.dfy): `Option`.
- `Text` (text.dfy): what the source uses of Python's `str`. That is `strip()`, `split()`, `" ".join`, `lower()`, `startswith`, substring `in`, decimal rendering of integers and string ordering.
- `Calendar` (calendar.dfy): the proleptic Gregorian calendar of `datetime.date`. It covers which dates exist, `toordinal()`, weekdays, and English month and weekday names.
- `Stamp` (stamp.dfy): the timestamp pattern of preprocessor.py:8 and the scanner. The scanner finds matches left to right without overlap, the way `re.findall` and `re.split` do. The module also has a `strptime`-style parser for the three `pd.to_datetime` formats.
- `Tally` (tally.dfy): counting. It covers `value_counts`, `Counter.most_common`, `head` and sorted `groupby(...).count()`.
- `Preprocessor` (preprocessor.dfy): `preprocess`. It has two forms: the function `Preprocessed` and the imperative `Preprocess`, with its loops, proved equal to it.
- `Helper` (helper.dfy): every query of helper.py. Queries that loop in the source are methods proved against specification functions. The others are functions.

The main results:

- A transcript is exactly its leading text followed by stamp, entry, stamp, entry, … (`Stamp.SplitRoundTrip`). Every stamp found matches the pattern on its own.
- Both 12-hour formats read every stamp the same way, into exactly the minute its digits name (`Stamp.StampDate`). The 24-hour fallback can never read a stamp that the pattern found (`Stamp.Format24RejectsStamps`). Stamps with a two-digit year always make `preprocess` return the empty table (`Stamp.ShortYearNeverParses`).
- The table has one row per stamp. Row k holds the sender and body split from entry k and the calendar fields of stamp k. The table is empty exactly when no stamp is found or some stamp names no real minute (`Preprocessor.RowsFollowTheTranscript`).
- Every count the queries return adds up to the rows it counts. Rankings are non-increasing. The top-n lists hold no name that a listed name outranks. Timelines are in chronological order.

Where the prose descriptions of the program and its code disagree, the model follows the code:

- The word count of `fetch_stats` includes media placeholder bodies.
- The percentages of `most_busy_users` exceed 100 in total whenever some, but not all, rows are group notices. Their denominator leaves the notices out, while the numerators include them (`Helper.ShareTotal`).
- The comparison with `"<Media omitted>\n"` in `create_wordcloud` and `most_common_words` never removes a row of a table that `preprocess` built. Bodies are stripped, so none ends in a newline (`Helper.MediaFilterRemovesNothing`).
- The stop-word test `word not in stop_words` runs against the stop-word file read as one string. A word is therefore dropped when it occurs anywhere in that text, not only when it is a whole line of it (`Helper.Stopped`).
- A sender is not always a non-empty name. When only whitespace comes before the first separator, stripping leaves an empty sender (`Preprocessor.EmptySender`).

## Model

| member | source | states |
|---|---|---|
| Stamp.ScanFrom | preprocessor.py:8-13 | the matches found from position i lie in bounds, in order and without overlap. Each is a full match of the pattern. No match starts before the first one or between two consecutive ones, so the scan is leftmost-first as in `re.findall` |
| Stamp.Leading | preprocessor.py:11 | the text before the first stamp, which `[1:]` discards, contains no match of the pattern |
| Stamp.StampsAreStamps | preprocessor.py:13 | every string `findall` returns matches the timestamp pattern in full |
| Stamp.SplitRoundTrip | preprocessor.py:8-13 | the transcript is its leading text followed by the stamps and entries interleaved. `findall` and `split` therefore cut it into pieces that lose nothing and reorder nothing |
| Stamp.PiecesJoin | preprocessor.py:11-13 | for any chain of spans, the text before the first span, then the span texts interleaved with the gaps after them, is the whole string |
| Stamp.SegmentsCover | preprocessor.py:8 | the pieces a stamp's tokens match, concatenated, are exactly the matched text |
| Stamp.TokensLocal | preprocessor.py:13 | a match of the pattern is still a match when cut out of the transcript, so a found stamp stands alone |
| Stamp.Clock24 | preprocessor.py:32 | `%I` with `%p` gives an hour below 24 that is at least 12 exactly when pm, with the same hour modulo 12 |
| Stamp.ClockRoundTrip | preprocessor.py:32 | the 12-hour and 24-hour readings of an hour are inverse to each other |
| Stamp.Assemble | preprocessor.py:32-40 | a parse result is a real minute within a pandas Timestamp's range |
| Stamp.ParseWith | preprocessor.py:32-40 | `pd.to_datetime` with a format only ever yields a real, representable minute |
| Stamp.CompiledFormats | preprocessor.py:32-40 | the narrow-space and the plain-space 12-hour formats compile to the same directives, and the 24-hour format to its own |
| Stamp.PartsOf | preprocessor.py:8 | a stamp's day and month have 1–2 digits, its year 2–4, its hour 1–2 and its minute 2, and its meridiem is "am" or "pm" |
| Stamp.Denotes | preprocessor.py:32 | when a stamp names a minute, that minute has the stamp's year (four digits), month, day and minute, and its hour agrees with the stamp's hour and am/pm |
| Stamp.MatchStamp | preprocessor.py:32-36 | the 12-hour directives read a stamp whole exactly when its numbers are in range, and then into the stamp's own fields |
| Stamp.StampParse | preprocessor.py:32-36 | any format compiling to the 12-hour directives parses a stamp into exactly the minute the stamp names, or fails when it names none |
| Stamp.StampDate | preprocessor.py:32-36 | the narrow-space and plain-space formats agree on every stamp and give the minute it names |
| Stamp.Format24RejectsStamps | preprocessor.py:40 | the 24-hour fallback fails on every stamp, because it expects " - " where the stamp has "am" or "pm" |
| Stamp.ShortYearNeverParses | preprocessor.py:32-40 | a stamp with a 2- or 3-digit year, which the pattern admits, is parsed by none of the three formats |
| Preprocessor.FindSep | preprocessor.py:61 | the separator the lazy `([\w\W]+?):\s` settles on is the first ':' that has at least one character before it and whitespace after it. It is None when there is none |
| Preprocessor.SplitCases | preprocessor.py:53-76 | each entry falls into exactly one case: skipped, split at the first separator, or a notice (system or group) |
| Preprocessor.BlankEntry | preprocessor.py:53-57 | a blank entry becomes sender "skipped_entry" with an empty body |
| Preprocessor.SenderAtFirstSeparator | preprocessor.py:61-66 | with a separator, the sender is the stripped text before the first one and the body is the stripped text after it |
| Preprocessor.EmptySender | preprocessor.py:61-63 | the sender can be empty: the entry " : hi" gives sender "" and body "hi" |
| Preprocessor.NoticeEntry | preprocessor.py:69-76 | without a separator, the body is the stripped entry. The sender is "system_notification" exactly when it starts with the Meta notice, and "group_notification" otherwise |
| Preprocessor.BodyIsStripped | preprocessor.py:63-76 | every body is already stripped and never ends in whitespace |
| Preprocessor.SplitOne | preprocessor.py:53-76 | one pass of the sender loop yields the specified sender and body |
| Preprocessor.SplitEntries | preprocessor.py:49-80 | the sender loop gives one sender and one body per entry, each the split of that entry |
| Preprocessor.PeriodNamesTheHour | preprocessor.py:93-101 | the bucket of hour h reads as "h-(h+1 mod 24)": two numerals joined by a dash, naming h and the next hour |
| Preprocessor.HourBucket | preprocessor.py:99-100 | for hours 1–22 the f-string bucket names h and h+1 |
| Preprocessor.LateBucket | preprocessor.py:95-96 | hour 23's bucket "23-00" names 23 and 0 |
| Preprocessor.MidnightBucket | preprocessor.py:97-98 | hour 0's bucket "00-01" names 0 and 1 |
| Preprocessor.PeriodInjective | preprocessor.py:93-101 | different hours get different buckets |
| Preprocessor.PeriodColumn | preprocessor.py:93-101 | the bucket loop gives one bucket per hour, the bucket of that hour |
| Preprocessor.ParseColumn | preprocessor.py:32 | a column parses exactly when every string in it does, and then into each string's own minute, in order |
| Preprocessor.ParseDates | preprocessor.py:30-44 | the try-chain yields one real minute per stamp, or nothing |
| Preprocessor.ReadDates | preprocessor.py:30-44 | the imperative try-chain tries the formats in order and returns the first column that parses whole |
| Preprocessor.ColumnFormats | preprocessor.py:30-44 | on stamps, the fallback to the plain-space format changes nothing and the 24-hour format never succeeds, so the chain is the narrow-space format alone |
| Preprocessor.StampColumn | preprocessor.py:30-44 | a column of stamps parses exactly when every stamp names a minute, and each row's date is the minute of its own stamp |
| Preprocessor.Rows | preprocessor.py:78-101 | one row per parsed minute |
| Preprocessor.RowOfStamp | preprocessor.py:78-101 | a row built from a stamp and its entry carries the entry's sender and body, the stamp's date fields, the month and weekday names of that date, and the hour's bucket |
| Preprocessor.BuildTable | preprocessor.py:22-101 | building the table step by step gives the specified table |
| Preprocessor.TableRows | preprocessor.py:22-44 | the table has the twelve columns. It has rows exactly when there are stamps and each names a minute, and then row k is the row of stamp k and entry k |
| Preprocessor.Preprocess | preprocessor.py:4-103 | the imperative `preprocess` returns the specified table |
| Preprocessor.RowsFollowTheTranscript | preprocessor.py:8-101 | for any transcript: as many entries as stamps; the table is empty exactly when there are no stamps or one names no minute; otherwise row k comes from stamp k and the entry after it |
| Helper.Select | helper.py:10-11 | "Overall" keeps every row. A user name keeps exactly that user's rows, as many as the user's occurrences in the user column; a one-row table keeps its row exactly when it passes |
| Helper.SelectAppend | helper.py:10-11 | selection works row by row: selecting from two tables placed end to end gives the two selections end to end. With the one-row case this fixes the result as each passing row once, in table order |
| Helper.ByUser | helper.py:11 | the rows of one user are exactly the rows with that sender, as many as the sender's occurrences; a one-row table keeps its row exactly when the sender matches |
| Helper.ByUserAppend | helper.py:11 | the user filter distributes over concatenation, so it keeps each matching row once and in table order |
| Helper.MediaCount | helper.py:23 | the media count is at most the number of bodies, and zero exactly when no lower-cased body contains "media omitted" |
| Helper.CollectWordList | helper.py:17-19 | the word loop collects every body's whitespace tokens, body after body |
| Helper.AllWordsOfJoin | helper.py:17-19 | the words counted body by body are the words of all bodies joined by spaces |
| Helper.CollectLinks | helper.py:26-28 | the link loop collects every URL the finder reports, body after body |
| Helper.FetchStats | helper.py:9-30 | the message count is the number of selected rows (the user's occurrences when one is selected). The word count is the number of tokens of the joined bodies. The media count is at most the message count. The link count is the number of URLs found |
| Helper.Top | helper.py:33 | `head()` takes the first n entries of the ranking, or all of them when there are fewer |
| Helper.TopOfRanking | helper.py:33 | the top entries are distinct names in non-increasing order, each with its true count. The list is empty only when there are no rows |
| Helper.MostBusyUsers | helper.py:32-46 | the first result is the top 5 senders. The second is empty for an empty table, and otherwise every sender's count as a share of the denominator |
| Helper.BusiestUsers | helper.py:33 | at most 5 distinct senders, in non-increasing order with true counts. No sender left out has more messages than a listed one |
| Helper.Denominator | helper.py:36-40 | the denominator is the count of rows from senders other than group notices, or the row count when every row is a notice. It is zero only for an empty table |
| Helper.SharesExact | helper.py:42-44 | each share keeps its sender's name, and its percentage times the denominator is 100 times the sender's count |
| Helper.SumOfShares | helper.py:42 | the percentages add up to 100 times the total count over the denominator |
| Helper.ShareTotal | helper.py:36-44 | the percentages sum to exactly 100 when no rows or all rows are group notices, and to more than 100 otherwise |
| Helper.UnstoppedMembers | helper.py:113 | the stop-word filter keeps exactly the words that are not stop words |
| Helper.KeptWordsMembers | helper.py:73-75 | a body's kept words are exactly its lower-cased tokens that are not stop words |
| Helper.KeepWords | helper.py:112-114 | the inner word loop keeps the specified words of one body |
| Helper.CollectWords | helper.py:108-114 | the outer word loop collects the kept words of every body, body after body |
| Helper.CorpusWords | helper.py:108-114 | every collected word is a non-empty token and not a stop word |
| Helper.TextRows | helper.py:60-61 | the word queries read exactly the rows that are neither group notices nor exactly the media line; a one-row table keeps its row exactly when it passes both tests |
| Helper.TextRowsAppend | helper.py:60-61 | the two filters distribute over concatenation, so they keep each passing row once and in table order |
| Helper.NoMediaLines | helper.py:105-106 | on rows none of which is the media line, the two filters give the same sequence as the group-notice filter alone |
| Helper.MostCommonWords | helper.py:94-121 | the result is the 20 most frequent kept words with their true counts, in non-increasing order. It is empty exactly when no word is kept |
| Helper.CorpusFlatten | helper.py:108-114 | the collected words are the kept words of each body, concatenated |
| Helper.CleanedWords | helper.py:69-83 | splitting the joined cleaned bodies gives back exactly the collected words |
| Helper.WordcloudText | helper.py:48-92 | the word-cloud text is empty exactly when no word is kept. Its whitespace tokens are exactly the kept words, in order |
| Helper.EmojiIn | helper.py:132 | the emoji of a body are exactly its characters that pass the emoji test |
| Helper.AllEmoji | helper.py:127-132 | every collected character passes the emoji test |
| Helper.CollectEmoji | helper.py:127-132 | the emoji loop collects every body's emoji, body after body |
| Helper.EmojiTally | helper.py:135-138 | a ranking of emoji is empty exactly when no emoji was found, and holds only emoji |
| Helper.EmojiHelper | helper.py:123-139 | the result counts every emoji exactly, in non-increasing order. The counts add up to the number of emoji found, and the result is empty exactly when there are none |
| Helper.MonthBeforeIsStrictTotalOrder | helper.py:151 | the group-key order of `groupby` (year, then month number, then name) is a strict total order |
| Helper.MonthGroups | helper.py:151 | one group per distinct month key with its exact count, keys strictly increasing, counts summing to the row count |
| Helper.MonthLabels | helper.py:153-155 | the label loop gives one label per group, its month name, a dash and the year |
| Helper.MonthLabelReadsBack | helper.py:155 | a label splits at its first dash back into the month name and the year |
| Helper.MonthlyTimeline | helper.py:141-158 | one row per month of the selected rows, earliest first, with exact counts summing to the rows selected, each labelled with its month and year |
| Helper.DailyTimeline | helper.py:160-170 | one row per distinct date with its exact count, dates strictly increasing, counts summing to the rows selected |
| Helper.DailyTimelineChronological | helper.py:169 | the daily timeline's dates are in calendar order, each a later day than the one before |
| Helper.WeekActivityMap | helper.py:172-179 | every weekday name with its exact count, in non-increasing order, counts summing to the rows selected |
| Helper.MonthActivityMap | helper.py:181-188 | every month name with its exact count, in non-increasing order, counts summing to the rows selected |
| Helper.ActivityKeys | helper.py:179 | on rows built by `preprocess`, the activity maps' keys are English weekday and month names |
| Helper.StrLtIsStrictTotalOrder | helper.py:206 | the order in which the pivot table sorts its labels is a strict total order |
| Helper.ActivityHeatmap | helper.py:190-207 | rows are the distinct weekday names and columns the distinct periods, both sorted. Each cell counts the rows sent on that day in that period, 0 where there are none |
| Helper.Cells | helper.py:206 | cell (i, j) of the pivot counts the rows with weekday i and period j |
| Helper.DayCell | helper.py:206 | counting a (day, period) pair among all rows is counting the period among that day's rows |
| Helper.HeatmapRow | helper.py:206 | a heatmap row sums to the number of rows sent on that weekday |
| Helper.HeatmapCountsEveryRow | helper.py:190-207 | the heatmap's cells sum to the number of selected rows, so every message lands in exactly one cell |
| Helper.ParsedRows | preprocessor.py:63-101 | every row `preprocess` builds has a real date, an English weekday and month name, and a body that is not the media line |
| Helper.MediaFilterRemovesNothing | helper.py:105-106 | on a table `preprocess` built, the media-line filter removes nothing: the word queries read exactly the rows that are not group notices, in the same order |
| Text.Strip | preprocessor.py:53 | `strip()` removes exactly the leading and trailing whitespace. Its result is empty exactly for a blank string, and otherwise starts and ends with non-space |
| Text.StripIdempotent | preprocessor.py:63-76 | stripping twice is stripping once |
| Text.Words | helper.py:19 | `split()` yields non-empty tokens without whitespace |
| Text.WordsOfBlank | helper.py:86 | a string has no tokens exactly when it is blank |
| Text.WordsOfJoin | helper.py:76 | the tokens of strings joined by spaces are the tokens of each string, concatenated |
| Text.SplitJoinRoundTrip | helper.py:76 | joining tokens with spaces and splitting again gives back the tokens |
| Text.Lower | helper.py:73 | `lower()` keeps the length and lower-cases character by character |
| Text.ContainsSubstring | helper.py:113 | `in` on strings holds exactly when the word occurs at some position of the text |
| Text.StartsWithPrefix | preprocessor.py:71 | `startswith` holds exactly when the prefix is the string's first characters |
| Text.Decimal | preprocessor.py:96-100 | `str(n)` is a non-empty digit string without a leading zero (except "0") |
| Text.DecimalRoundTrip | helper.py:155 | reading back the decimal rendering of n gives n |
| Text.DigitsValueBound | preprocessor.py:8 | a numeral of k digits is below 10^k |
| Text.StrLtIrreflexive | helper.py:206 | no label sorts before itself |
| Text.StrLtTransitive | helper.py:206 | label order is transitive |
| Text.StrLtTotal | helper.py:206 | any two distinct labels are ordered one way or the other |
| Tally.Occ | helper.py:179 | a count is positive exactly when the value occurs |
| Tally.Counter | helper.py:120 | `Counter` pairs every distinct value with its exact count, the counts summing to the length |
| Tally.SortByCount | helper.py:42 | sorting by count permutes the pairs into non-increasing order, keeping the total and distinct keys |
| Tally.SortedTally | helper.py:179 | sorting a tally leaves it a tally of the same values |
| Tally.Ranked | helper.py:138 | `value_counts` and `most_common()` list every distinct value once with its exact count, in non-increasing order, totalling the length |
| Tally.TopIsTop | helper.py:33 | a value left out of the first n of the ranking occurs no more often than any value listed |
| Tally.PrefixOfTally | helper.py:33 | the first n entries of a tally keep distinct keys and true counts |
| Tally.TallyTotal | helper.py:151 | the counts of a tally add up to the number of values counted |
| Tally.SortedKeys | helper.py:206 | the sorted distinct labels are strictly increasing and hold exactly the values present |
| Tally.GroupCount | helper.py:151 | `groupby(...).count()` gives each distinct key once with its exact count, keys strictly increasing, counts totalling the length |
| Calendar.DaysInMonth | preprocessor.py:32 | every month has 28 to 31 days |
| Calendar.NextDayOrdinal | preprocessor.py:83 | the day after a date has the next day number |
| Calendar.NextDayWeekday | preprocessor.py:88 | the weekday of the next day is the next weekday |
| Calendar.DayName | preprocessor.py:88 | `day_name()` is always an English weekday name |
| Calendar.MonthName | preprocessor.py:86 | `month_name()` is always an English month name |
| Calendar.KnownWeekdays | preprocessor.py:88 | 1 January 1970 is named Thursday and 1 January 2024 Monday |
| Calendar.DaysBeforeYearIsSum | preprocessor.py:83 | the closed-form day count before a year is the sum of the lengths of the years before it |
| Calendar.DateLtIsStrictTotalOrder | helper.py:169 | date comparison is a strict total order |
| Calendar.DateLtIsChronological | helper.py:169 | one date sorts before another exactly when its day number is smaller |

## Left out

- app.py, the Streamlit front end, is not part of this model: it only displays the results.
- I/O is not modelled. The URL finder (`URLExtract.find_urls`) and the emoji test (`emoji.is_emoji`) are function parameters. The stop-word file is a parameter holding its text, or `NoFile` when it is missing.
- The `WordCloud` image is not modelled. `Helper.WordcloudText` returns the text that would be drawn.
- Helper.WordcloudText: when no word is left (helper.py:64-67 and helper.py:86-88), the source calls `WordCloud(...).generate('')`. The wordcloud library raises `ValueError` on empty text, so the source fails there rather than returning an empty cloud, whatever the comment at helper.py:66 says. The model returns `""` instead and does not model the exception.
- The `print` warnings are left out. They have no effect on the results.
- The pandas DataFrames are modelled as values: `Frame` and sequences of rows and pairs. Column assignment in place (`df['date'] = …`, `drop(..., inplace=True)`, `temp.loc[:, "message"] = …`) builds a new value instead. Aliasing between DataFrames is not modelled.
- Helper.MostBusyUsers: the percentages are exact rationals, not `round(..., 2)` floats. Rounding can shift a total that is exactly 100 by a few hundredths.
- Helper.MostBusyUsers, Tally.Ranked: the order among equal counts is whatever a stable insertion sort gives. pandas and `Counter` break such ties their own way, so the model only promises non-increasing counts.
- Text.Lower: only ASCII letters are lower-cased. Python's full Unicode case mapping is not modelled.
- Text.IsDigit and Text.IsSpace: `\d` and `\s` are ASCII digits plus the whitespace characters listed in text.dfy. Unicode digit classes are not modelled.
- Helper.IsMedia: `str.contains` with `na=False` is modelled on strings only. Every body is a string, so the `na` case cannot arise.
- The `isinstance(message, str)` checks (preprocessor.py:53, helper.py:72, 111, 130, 201) always hold. Every body is a string here, so the non-string branches are not modelled.
- The column and dtype guards of `monthly_timeline`, `daily_timeline`, `week_activity_map`, `month_activity_map` and `activity_heatmap` always pass on the table `preprocess` builds, so their error branches are not modelled.
- The `else` at preprocessor.py:67-68 cannot be reached, because `re.split` with a capture group always yields the text after the separator. The model has no such branch.
- Stamp.ParseWith: only the directives the three formats use (`%d`, `%m`, `%Y`, `%I`, `%H`, `%M`, `%p`, whitespace and literal characters) are modelled. The pandas range is taken to the minute (1677-09-21 00:13 to 2262-04-11 23:47).
- Preprocessor.Preprocess: `pd.to_datetime` reading of mixed or inferred formats is not modelled, since every call passes an explicit format.
- Helper.ActivityHeatmap: the cells are counts (natural numbers), where `fillna(0)` gives floats. On an empty selection the model gives a heatmap with no days and no periods. This is the empty table that the source returns at helper.py:202-204.
