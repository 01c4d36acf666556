# Chat-log ranking engine, modelled in Dafny

This project models the log-ranking core of the chat bot's `chatrank` plugin
(`bot/plugins/chatrank.py`). The bot keeps one log file per day in a `logs`
directory. The core does four things with those files:

- **Line patterns.** `CHAT_LOG_RE`, `BONKER_RE` and `BONKED_RE` pick the user
  out of one log line. `LineMatch` models them as hand-written recognisers,
  each proved equivalent, in both directions, to a declarative description of
  the pattern.
- **Counting.** `_counts_per_file` counts one file's matching lines, keyed by
  the lower-cased user, in a `collections.Counter`. `_chat_rank_counts` adds
  the counts of every file in the directory. Past files are counted through a
  process-wide `lru_cache`; today's log is always counted afresh. The model
  lives in `Counters`, `FileCount` and the class `ChatRank.CountCache`.
- **Ranking.** `most_common` is a stable sort by descending count.
  `_tied_rank` groups equal counts and numbers the groups from 1.
  `_user_rank_by_line_type` looks up one user; `_top_n_rank_by_line_type`
  formats the first `n` entries. The model lives in `Ranking`.
- **Plotting.** `_log_start_date` and `cmd_chatplot` build the series of
  daily counts behind the plot: the day offset from the first log, and the
  user's line count that day. The model lives in `ChatRank`, with date
  arithmetic in `Calendar`.

The model's inputs:

- The directory is a value `LogDir`. It holds the names `os.listdir` returns,
  in its order, and the lines of each file.
- Each line keeps its terminator, as iterating over a text file yields it.
- Today's date is a parameter.

The loops of the source are methods, each proved equal to a specification
function:

| method | source loop | specification function |
|---|---|---|
| `FileCount.CountLines` | per-line loop | `Tally` |
| `ChatRank.ChatRankCounts` | per-file loop | `RankTotals` |
| `Ranking.FormatRanking` | `user_list` loop | `FormatGroup` on each group |
| `ChatRank.PlotLoop` | `x`/`y` loop | `Kept` of `Collect` |

Lemmas connect those functions to their meaning:

- A user's total is the number of lines in all the logs whose pattern yields
  that user.
- A user's rank is one more than the number of distinct larger totals.
- A plotted point is a past log's day offset and the user's line count in it.

Behaviour of the code worth noting:

- **Dense ranking.** `_tied_rank` numbers the tie groups 1, 2, 3, … with no
  gaps. This is dense ranking: a tie of three users at rank 1 is followed by
  rank 2, not rank 4. `Ranking.UserRankCorrect` states the rank as one more
  than the number of distinct larger counts.
- **`!bonk\b` matching.** `BONKER_RE` ends in `!bonk\b`, so any message that
  begins with the word `!bonk` counts. This includes `!bonk @someone`, not only
  a bare `!bonk` (`LineMatch.BonkCommand`).
- **Start date.** `_log_start_date` takes the least file name as a string and
  keeps the part before its first `.`. It does not compare dates. The model
  proves that, for names that begin with an ISO date, string order and date
  order agree (`Calendar.IsoOrder`, `ChatRank.NameDateOrder`).
- **Failures.** A failed count is an exception that ends the command: an
  unmatched chat line trips `assert reg is not CHAT_LOG_RE`, and a bad date
  makes `fromisoformat` raise. The model returns these as `Failure` values.
  `lin_regr` would divide by zero on a degenerate series, but it is outside
  the model (see "Left out").
- **Bare action lines.** Each line keeps its terminator, and `[^ ]+` takes it
  too. So a bare action line `[t] * alice` gives the key `alice` followed by a
  newline, while `[t] * alice waves` gives `alice`: the two count under
  different keys (`LineMatch.ActionUserKeepsNewline`,
  `LineMatch.ActionUserBeforeSpace`).

## Model

| member | source | states |
|---|---|---|
| Text.LowerIsLower | bot/plugins/chatrank.py:42 | `str.lower` leaves no capital letter, is idempotent, and fixes exactly the strings without capitals |
| Text.LexLessTransitive | bot/plugins/chatrank.py:90 | Python's string order `<` is transitive |
| Text.LexLessTotal | bot/plugins/chatrank.py:90 | of two different strings one is less than the other |
| Text.LexLeAntisymmetric | bot/plugins/chatrank.py:90 | two strings each at most the other are equal |
| Text.SortNames | bot/plugins/chatrank.py:174 | `sorted(os.listdir(...))` is a permutation of the listed names |
| Text.SortNamesSorted | bot/plugins/chatrank.py:174 | the sorted names are in ascending string order |
| Text.SortNamesMembers | bot/plugins/chatrank.py:174 | sorting keeps exactly the listed names |
| Text.MinName | bot/plugins/chatrank.py:90 | `min` fails exactly on an empty listing, otherwise gives a listed name at most every other |
| Text.MinIsFirstSorted | bot/plugins/chatrank.py:90 | `min(names)` is the first of `sorted(names)` |
| Text.Stem | bot/plugins/chatrank.py:91 | `partition('.')[0]` is a prefix free of `.`, cut just before the first `.` when there is one |
| Text.StemOfDotted | bot/plugins/chatrank.py:178 | the head of `<date>.log` is `<date>` |
| Text.NatToString | bot/plugins/chatrank.py:84 | an f-string of a number is a non-empty run of digits that starts with 0 only for the number 0 |
| Text.NatToStringValue | bot/plugins/chatrank.py:84 | the digits of a formatted number read back as that number |
| LineMatch.ChatUserCorrect | bot/plugins/chatrank.py:24-26 | the chat recogniser yields `u` if and only if the line is `[ts]`, a prefix free of `<` and `*`, then `<u>` with `u` free of `>` or `* u` with `u` free of spaces |
| LineMatch.BonkerUserCorrect | bot/plugins/chatrank.py:27 | the bonker recogniser yields `u` if and only if the line is a chat line by `<u>` whose message starts with the word `!bonk` |
| LineMatch.BonkedUserCorrect | bot/plugins/chatrank.py:28 | the bonked recogniser yields `u` if and only if a chat line's message is `!bonk `, an optional `@`, then `u` as the longest run of word characters |
| LineMatch.BonkerIsChat | bot/plugins/chatrank.py:25-27 | every bonker line is also a chat line of the same user |
| LineMatch.ChatUserShape | bot/plugins/chatrank.py:25 | a chat user is non-empty, with no `>` or with no space |
| LineMatch.ActionUserKeepsNewline | bot/plugins/chatrank.py:25 | a bare action line `[t] * alice` with its newline gives the user `alice` plus the newline |
| LineMatch.ActionUserBeforeSpace | bot/plugins/chatrank.py:25 | the action line `[t] * alice waves` gives the user `alice`, a different key from the bare line's |
| LineMatch.BonkedUserShape | bot/plugins/chatrank.py:28 | a bonked user is a non-empty run of word characters |
| LineMatch.MatchUserNonEmpty | bot/plugins/chatrank.py:40-41 | whenever a pattern matches, the user group is non-empty, so `assert user, line` never fires |
| Counters.Empty | bot/plugins/chatrank.py:33 | a new `Counter` has no keys and counts every user as 0 |
| Counters.AddTo | bot/plugins/chatrank.py:42 | `counts[k] += n` adds `n` to `k` alone, and a new key goes last in insertion order |
| Counters.Update | bot/plugins/chatrank.py:51 | `total.update(counts)` adds every count, the keys become the union, and the key order is the old order followed by the new keys in the other counter's order |
| Counters.UpdateWithOrder | bot/plugins/chatrank.py:51 | the update loop keeps the order of the keys already present and appends each new key once, in the order it is met |
| Counters.NewKeysMembers | bot/plugins/chatrank.py:51 | the keys `update` appends are exactly the other counter's keys that were absent, each once |
| Counters.UpdateWithEntry | bot/plugins/chatrank.py:51 | the update loop adds each listed key's count once and leaves other keys alone |
| Counters.AddToTotal | bot/plugins/chatrank.py:42 | one increment by `n` raises the sum of all counts by `n` |
| Counters.UpdateTotal | bot/plugins/chatrank.py:51 | after `update`, the sum of all counts is the sum of both counters' sums |
| FileCount.KeyOf | bot/plugins/chatrank.py:36-42 | a line has a key exactly when the pattern matches, and the key is lower-case |
| FileCount.LineKey | bot/plugins/chatrank.py:36-42 | a line gets a key exactly when its line type's pattern matches |
| FileCount.CountLines | bot/plugins/chatrank.py:35-42 | the loop over the lines returns the specification fold `Tally`, including its failure |
| FileCount.CountsPerFile | bot/plugins/chatrank.py:31-43 | counting a file returns `FileTally` for its line type |
| FileCount.TallyFailed | bot/plugins/chatrank.py:37-38 | once a prefix of the lines fails, every longer prefix fails with the same error |
| FileCount.TallyCounts | bot/plugins/chatrank.py:42 | a user's count is the number of lines whose matched user lowers to it, and it is a key exactly when there is such a line |
| FileCount.TallyTotal | bot/plugins/chatrank.py:42 | the counts add up to the number of matching lines |
| FileCount.TallyKeysLower | bot/plugins/chatrank.py:42 | every key of a file's counter is lower-case |
| FileCount.TallySucceeds | bot/plugins/chatrank.py:37-38 | counting succeeds if and only if the pattern is lenient or every line matches |
| FileCount.TallyFailsAt | bot/plugins/chatrank.py:37-38 | a failure reports the first line that does not match |
| FileCount.FileTallyCounts | bot/plugins/chatrank.py:31-43 | per line type, a user's count in a file is the number of its lines for that user |
| FileCount.FileTallyTotal | bot/plugins/chatrank.py:31-43 | per line type, a file's counts add up to its matching lines |
| FileCount.FileTallyKeysLower | bot/plugins/chatrank.py:42 | per line type, a file's keys are lower-case |
| FileCount.FileTallyOutcome | bot/plugins/chatrank.py:36-39 | counting fails only under the chat pattern, if and only if some line is not a chat line, and then names the first one |
| FileCount.FileTallyPositive | bot/plugins/chatrank.py:42 | no key of a file's counter has count 0 |
| ChatRank.AddUpOutcome | bot/plugins/chatrank.py:48-54 | adding up succeeds if and only if every file's count succeeds |
| ChatRank.AddUpStops | bot/plugins/chatrank.py:48-54 | the first failing file's error is the error of the whole sum |
| ChatRank.AddUpGet | bot/plugins/chatrank.py:51 | a user's total is the sum of the user's counts over the files |
| ChatRank.AddUpPositive | bot/plugins/chatrank.py:51 | adding positive counters gives a positive counter |
| ChatRank.AddUpTotal | bot/plugins/chatrank.py:51 | the grand total is the sum of the files' totals |
| ChatRank.RankTotalsOutcome | bot/plugins/chatrank.py:46-55 | the totals exist if and only if every listed file can be counted |
| ChatRank.RankTotalsCounts | bot/plugins/chatrank.py:46-55 | a user's total is the number of their lines over all logs, and they are a key exactly when that is positive |
| ChatRank.RankTotalsTotal | bot/plugins/chatrank.py:46-55 | all totals add up to the matching lines of all logs |
| ChatRank.CountCache.constructor | bot/plugins/chatrank.py:31 | the cache starts empty |
| ChatRank.CountCache.CountsPerFileCached | bot/plugins/chatrank.py:31-32 | a hit returns the stored counter unchanged; a miss counts the file and stores the counter only on success; a cache that agrees with the directory on every file but some `skip` returns the true count of any other file and keeps that agreement; nothing is assumed of the entry for `skip` |
| ChatRank.CountLogFile | bot/plugins/chatrank.py:50-54 | each file is counted correctly, today's log by a fresh count that neither reads nor relies on a possibly stale stored entry; stored entries are never changed, the only new entry is this file's, never today's log, and a successful count of a past log leaves it stored |
| ChatRank.ChatRankCounts | bot/plugins/chatrank.py:46-55 | the loop returns `RankTotals` of the directory; the cache keeps the old entries unchanged and only gains non-today entries of this pattern; on success every log but today's is stored, so a later call counts no past log again; a stale entry for today's log is allowed |
| ChatRank.UserRankByLineType | bot/plugins/chatrank.py:66-76 | gives the user's rank in the directory's totals, or the counting failure, even when the cache holds a stale entry for today's log; the cache keeps its old entries, gains only non-today entries of this pattern, and on success holds every log but today's |
| ChatRank.TopNRankByLineType | bot/plugins/chatrank.py:79-85 | gives one formatted line per tie group of the first `n` totals, or the counting failure, even when the cache holds a stale entry for today's log; the cache keeps its old entries, gains only non-today entries of this pattern, and on success holds every log but today's |
| ChatRank.UserRankOfLogs | bot/plugins/chatrank.py:66-76 | a user is found if and only if they have a line in the logs; the count is their line total, and the rank is one more than the number of distinct larger totals |
| ChatRank.LogStartDate | bot/plugins/chatrank.py:88-92 | no start date on an empty directory; otherwise the head of a least file name |
| ChatRank.LogStartIsFirstSorted | bot/plugins/chatrank.py:88-92 | the start date is the head of the first name in sorted order |
| Ranking.SortByCount | bot/plugins/chatrank.py:71 | `most_common()` is a permutation of the items in non-increasing order of count |
| Ranking.SortByCountStable | bot/plugins/chatrank.py:71 | the sort is stable: the entries with any one count keep their order |
| Ranking.SortByCountSorted | bot/plugins/chatrank.py:71 | an already sorted list is left as it is |
| Ranking.MostCommonEntries | bot/plugins/chatrank.py:71 | `most_common()` lists each user of the counter once, with its count |
| Ranking.MostCommonNames | bot/plugins/chatrank.py:71 | a user is listed by `most_common()` exactly when it is a key |
| Ranking.Take | bot/plugins/chatrank.py:82 | `most_common(n)` keeps the first `min(n, len)` entries, and none for `n <= 0` |
| Ranking.RunLength | bot/plugins/chatrank.py:62 | a `groupby` run is the longest prefix of equal counts |
| Ranking.TiedRankFlatten | bot/plugins/chatrank.py:58-63 | the tie groups, concatenated, give back the sorted list |
| Ranking.TiedRankGroups | bot/plugins/chatrank.py:58-63 | groups are numbered consecutively from the start, are non-empty, and their members share the group's count |
| Ranking.TiedRankMaximal | bot/plugins/chatrank.py:62 | neighbouring groups have different counts, so every run of ties is one group |
| Ranking.TiedRankDecreasing | bot/plugins/chatrank.py:61-63 | over a sorted list, the group counts strictly decrease |
| Ranking.FindUserIn | bot/plugins/chatrank.py:71-76 | the lookup finds a user if and only if the user is in the ranked list |
| Ranking.FindUserFound | bot/plugins/chatrank.py:71-74 | a found user is a member of the group whose rank and count are returned |
| Ranking.KeyRank | bot/plugins/chatrank.py:71-74 | a key of the counter is found at rank one plus its number of distinct larger counts, with its own count |
| Ranking.UserRankCorrect | bot/plugins/chatrank.py:69-76 | the lower-cased user is found if and only if it is a key; then the count is its total and the rank is one more than the number of distinct larger totals |
| Ranking.TopGroupsAll | bot/plugins/chatrank.py:82 | for `n` at least the number of users, the top-`n` groups are the full ranking |
| Ranking.UserRankInTopGroups | bot/plugins/chatrank.py:71-85 | a ranked user appears in the top-`n` groups, for `n` large enough, with the same rank and count |
| Ranking.TopGroupsEntries | bot/plugins/chatrank.py:82 | the top-`n` groups hold exactly the first `min(n, len)` entries of `most_common()` |
| Ranking.FormatRanking | bot/plugins/chatrank.py:81-85 | the loop gives one `rank. names (count)` line per group, in order |
| Ranking.FormatGroupRank | bot/plugins/chatrank.py:84 | the text before the first `.` of a formatted line reads back as the group's rank |
| Ranking.TieExample | bot/plugins/chatrank.py:58-71 | counts `{a: hi, b: hi, c: lo}` rank `a` and `b` together at 1 and `c` at 2 |
| Ranking.TopNCutsTies | bot/plugins/chatrank.py:79-85 | for counts `[hi, hi, hi, lo]` and `n = 2`, the first two users form the rank-1 group and the third tied user is cut |
| Ranking.TiedRankTwoRuns | bot/plugins/chatrank.py:62-63 | a list of two runs gives exactly two groups, ranks 1 and 2 |
| Ranking.TiedRankOneRun | bot/plugins/chatrank.py:62-63 | a list of equal counts is one group at rank 1 |
| Ranking.MostCommonOfSorted | bot/plugins/chatrank.py:71 | a counter whose items are already in count order keeps that order |
| Calendar.DaysInMonth | bot/plugins/chatrank.py:178 | months have 28 to 31 days, and 29 exactly in a leap February |
| Calendar.FormatIsoDate | bot/plugins/chatrank.py:175 | `str(date)` is ten characters with dashes at positions 4 and 7 |
| Calendar.ParseIsoDate | bot/plugins/chatrank.py:178 | `date.fromisoformat` accepts only valid dates |
| Calendar.ParseFormat | bot/plugins/chatrank.py:175-178 | parsing a formatted date gives the date back |
| Calendar.FormatParse | bot/plugins/chatrank.py:178 | an accepted string is the formatted form of its date |
| Calendar.DaysBeforeNextYear | bot/plugins/chatrank.py:183 | each year adds its own length in days |
| Calendar.OrdinalMonotonic | bot/plugins/chatrank.py:183 | a later date has a larger day number |
| Calendar.OrdinalInjective | bot/plugins/chatrank.py:183 | two dates have the same day number if and only if they are equal |
| Calendar.IsoBefore | bot/plugins/chatrank.py:174 | names that begin with ISO dates sort in date order |
| Calendar.IsoOrder | bot/plugins/chatrank.py:174-183 | sorted names that begin with ISO dates have non-decreasing day numbers |
| ChatRank.NameDate | bot/plugins/chatrank.py:178 | a file name's date, when it parses, is a valid date |
| ChatRank.NameDateOrder | bot/plugins/chatrank.py:174-178 | in sorted file-name order, the dates never go backwards |
| ChatRank.FirstCounted | bot/plugins/chatrank.py:182 | the first day with a count: every earlier day has none |
| ChatRank.KeptStep | bot/plugins/chatrank.py:182-184 | `if x or counts[user]`: a day is appended once the series has started, or when it has a count |
| ChatRank.DayPointMeaning | bot/plugins/chatrank.py:178-184 | a day's point is its offset from the start date and the user's chat-line count in that log |
| ChatRank.ReadDay | bot/plugins/chatrank.py:178-184 | one iteration reads the date and the cached count of the file, or stops on a bad name or a failed count; the cache keeps its old entries, can gain only this file's chat counter, and holds it after a success |
| ChatRank.PlotLoop | bot/plugins/chatrank.py:174-184 | the lists `x` and `y` zip to the kept points, or the loop stops at the first error; the cache keeps its old entries and gains only chat counters of the listed logs other than today's |
| ChatRank.ChatPlotSeries | bot/plugins/chatrank.py:168-189 | the lists zip to the specified series, or give its error (no logs, bad date, failed count, fewer than two days); the cache keeps its old entries and gains only chat counters of the directory's logs other than today's |
| ChatRank.PlotSeriesShape | bot/plugins/chatrank.py:182-189 | a plotted series has at least two days, starts with a day of chat, and its day offsets never decrease |
| ChatRank.PlotSeriesAfterStart | bot/plugins/chatrank.py:170-183 | no day offset is negative |
| ChatRank.PlotSeriesSound | bot/plugins/chatrank.py:174-184 | every point comes from a past log, at its day offset, with the user's chat-line count in it |
| ChatRank.PlotSeriesComplete | bot/plugins/chatrank.py:174-184 | every past log in which the user chatted is plotted |
| ChatRank.Scatter | bot/plugins/chatrank.py:199-203 | the scatter data are exactly the zipped points with a non-zero count |
| ChatRank.ScatterInOrder | bot/plugins/chatrank.py:199-203 | the scatter data pick the zipped points at strictly increasing indices, and every index of a point with a non-zero count is picked: the non-zero points in the series' order, each once |

## Left out

- `lin_regr` and the trend line: floating-point arithmetic. Its division by zero on a series whose days are all equal is outside the model too.
- The chart JSON, the callback string, `json.dumps` and the POST to the chart service: serialisation and network I/O.
- The command handlers (`cmd_chatrank`, `cmd_top_10_chat`, `cmd_bonkrank`, `cmd_top_5_bonkers`, `cmd_bonkedrank`, `cmd_top_5_bonked`, `cmd_chatplot`'s reply), `format_msg`, `esc`, `optional_user_arg` and the reply texts: they belong to the command framework, which is not part of this model. Each handler calls a modelled function with a fixed pattern and `n`.
- `os.listdir`, `open` and `datetime.date.today()`: the directory is the value `LogDir` and today's date is a parameter. I/O errors and undecodable UTF-8 are not modelled.
- `\w` and `str.lower` are modelled on ASCII only. Unicode word characters and Unicode case mapping are not modelled.
- The `lru_cache` internals (hashing, thread safety, the identity of the compiled pattern): the cache is a map keyed by file name and line type.
- ChatRank.CountCache.CountsPerFileCached: the contract that the count matches the file assumes the cache agrees with the directory on every file but one (`AgreesBut`; today's log is that file, and its entry may be stale). A past log edited after it was cached is not modelled beyond the hit case returning the stored counter.
- ChatRank.PlotLoop: does not state that every plotted log ends up stored in the cache, only which entries it may add. Carrying that fact through the loop beside the plotted points is too costly for the prover.
- ChatRank.ChatPlotSeries: for the same reason, does not state that every log it plotted ends up stored in the cache.
- Running under `python -O`, which strips `assert reg is not CHAT_LOG_RE`: an unmatched chat line would then be skipped rather than raise. The model follows the default run, in which the assertion is kept and the count fails with `UnmatchedChatLine`.
- ChatRank.LogStartDate: `_log_start_date` is cached once per process (`maxsize=1`). The model recomputes it from the directory, so it does not capture a stale start date after the oldest log is removed.
- Calendar.ParseIsoDate: accepts exactly `YYYY-MM-DD`, the form `date.fromisoformat` accepted before Python 3.11. The extra forms of 3.11 and later are not modelled.
- The date changing while a loop runs: today's date is one value for the whole call.
- Concurrency between commands sharing the cache: every method runs alone.
