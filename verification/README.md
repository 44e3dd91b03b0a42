# yohonhl core, modelled in Dafny

This project models the pure core of `yohonhl`, a small client for the NHL
web API. It covers:

- **Date text handling** (`api.py`). `parse_date`, `fmt_date` and
  `normalize_datestr` are modelled on `strptime`/`strftime` with the format
  `%Y-%m-%d`. The parser follows CPython's regular expressions for `%Y`, `%m`
  and `%d`: exactly four ASCII digits for the year, a one- or two-digit month,
  and a one- or two-digit day that may also be a space followed by one digit.
  A text that does not match the format is a `DoesNotMatchFormat` error. A
  text that matches but names no calendar date, such as `2023-02-29`, is a
  `NoSuchDate` error.
- **The proleptic Gregorian calendar of Python's `date`.** It covers years 1
  to 9999, day numbers equal to `date.toordinal()`, and `date + timedelta`.
- **Weekly request anchors** (`_get_week_start_dates`). The anchors run from
  the start date, one week apart, until they cover the end date. An inverted
  or empty range yields the single anchor `from`.
- **Request URLs** built by `get_weekly_schedules` and `get_game_info`, and
  the `filter(None, results)` applied to the fetch outcomes in
  `_get_endpoints_async`. The HTTP fetch is a parameter: a function from a
  URL to the decoded body, or `None` for a response that was not OK.
- **Goal extraction** (`goals_from_linescores` in `stats.py`). The JSON
  document is typed, and every key the code reads is an `Option`, where
  `None` is a missing key. The one caught `KeyError`, a finished game
  without `goals`, skips that game. Every other missing key, and every date
  or clock that does not parse, ends the whole call with an error.

Modules, one per file:

| module | contents |
|---|---|
| `Wrappers` | `Option` and `Result` |
| `Digits` | digit text, zero padding, `str(int)` |
| `Calendar` | dates, day numbers, adding days |
| `DateText` | parsing, formatting and normalising date text |
| `ClockText` | `%M:%S` parsing |
| `WeekWindow` | weekly anchors |
| `Endpoints` | URLs and the fetch filter |
| `Linescore` | goal extraction |

Points where the code's behaviour is easy to misread, stated as the model
has them:

- **The filter keeps the request order.** `asyncio.gather` returns results
  in the order of its arguments, so the bodies that survive
  `filter(None, results)` are in request order (api.py:74-76).
- **Failures of the fetch.** A response that is not OK becomes `None` and is
  dropped (api.py:66-68). A transport exception raised inside `gather` is not
  caught: it propagates to the caller (api.py:71-76), so only not-OK
  responses and falsy bodies are dropped.
- **No clamping and no day filtering.** `get_weekly_schedules` neither clamps
  an end date before the start date nor filters the days of the fetched
  weeks by the end date (api.py:104-110). An inverted range still gives the
  single anchor `from`, because `_get_week_start_dates` yields `[dt_from]`
  for a span that is not positive (api.py:49-52).
- **Goals come from linescore documents.** `goals_from_linescores` reads a
  `games[].goals[]` document (stats.py:33-46). It does not read game-detail
  summaries.

## Model

| member | source | states |
|---|---|---|
| DateText.Parse | src/yohonhl/api.py:29-31 | a successful parse always yields a valid calendar date in years 1..9999 |
| DateText.ParseMeaning | src/yohonhl/api.py:29-31 | `parse_date(s)` returns date d exactly when s spells d in one of the accepted `%Y-%m-%d` shapes and d is a real calendar date |
| DateText.ParseRejects | src/yohonhl/api.py:29-31 | a text that spells no valid date in any accepted shape raises |
| DateText.ParseNoSuchDate | src/yohonhl/api.py:29-31 | parsing fails with the no-such-date error exactly when the text has the right shape but names an impossible date (e.g. Feb 30) |
| DateText.ParseShapeMismatch | src/yohonhl/api.py:29-31 | parsing fails with the format error exactly when the text spells no year-month-day triple in any accepted shape |
| DateText.SpelledParse | src/yohonhl/api.py:29-31 | whatever triple a text spells is what the parser reads from it: the date when it exists, the no-such-date error otherwise |
| DateText.Format | src/yohonhl/api.py:34-36 | `fmt_date` always produces canonical text: 4-digit year, `-`, 2-digit month, `-`, 2-digit day |
| DateText.ParseFormat | src/yohonhl/api.py:29-36 | round trip: parsing the formatted date gives back the same date |
| DateText.FormatInjective | src/yohonhl/api.py:34-36 | two valid dates have the same text exactly when they are the same date |
| DateText.Normalize | src/yohonhl/api.py:39-41 | normalising succeeds exactly when parsing does, fails with the parser's error, and on success yields canonical text |
| DateText.NormalizeSameDate | src/yohonhl/api.py:39-41 | the normalised text names the same date as the input and is that date's formatted text |
| DateText.NormalizeIdempotent | src/yohonhl/api.py:39-41 | normalising a normalised text changes nothing |
| DateText.NormalizeFixesCanonical | src/yohonhl/api.py:39-41 | a canonical text of a valid date is its own normal form |
| ClockText.ParseClock | src/yohonhl/stats.py:53-55 | `strptime(..., "%M:%S").time()` yields hour 0 and minute and second below 60; a failure reports the offending text |
| ClockText.ParseClockMeaning | src/yohonhl/stats.py:53-55 | the clock parses to 0:m:s exactly when the text spells m and s in the accepted `%M` and `%S` shapes |
| ClockText.ParseFormatClock | src/yohonhl/stats.py:53-55 | round trip: a minute/second time written as `MM:SS` parses back to itself |
| ClockText.FormatClock | tests/conftest.py:60 | `strftime("%M:%S")` writes five characters with the colon in the middle; `ClockText.ParseFormatClock` shows the parser reads it back |
| Calendar.DayNumberOrder | src/yohonhl/api.py:46-47 | date order and the order of day numbers (`toordinal`) agree, both directions |
| Calendar.DayNumberInjective | src/yohonhl/api.py:46-47 | two valid dates have the same day number exactly when they are equal |
| Calendar.AddDaysStep | src/yohonhl/api.py:50 | `d + timedelta(days=k)` is a valid date whose day number is k more, whenever it does not pass 9999-12-31 |
| Calendar.DaysBeforeYearClosedForm | src/yohonhl/api.py:47 | the year-by-year day count equals Python's closed form 365(y-1) + (y-1)//4 - (y-1)//100 + (y-1)//400 |
| Calendar.DayNumber | src/yohonhl/api.py:47 | no contract of its own: `Calendar.DayNumberOrder` and `Calendar.DayNumberInjective` show it orders and separates dates as `toordinal` does, and `Calendar.DaysBeforeYearClosedForm` ties it to Python's formula |
| Calendar.AddDays | src/yohonhl/api.py:50 | no contract of its own: `Calendar.AddDaysStep` shows it moves a valid date by exactly k day numbers |
| WeekWindow.WeekStarts | src/yohonhl/api.py:47-52 | a positive span of n days gives n//7 + 1 anchors; a zero or negative span gives exactly `[from]` |
| WeekWindow.DaysBetween | src/yohonhl/api.py:47 | no contract of its own: `(dt_to - dt_from).days`, the difference of day numbers, which `Calendar.DayNumberOrder` relates to date order |
| WeekWindow.WeekStartsSpacing | src/yohonhl/api.py:47-50 | anchor i is a valid date exactly 7*i days after `from` |
| WeekWindow.WeekStartsCoverage | src/yohonhl/api.py:47-52 | for a forward range the anchors start at `from`, are 7 days apart, none passes `to`, and one more week would pass `to` |
| WeekWindow.WeekStartsInverted | src/yohonhl/api.py:49-52 | an end date not after the start gives the single anchor `from` |
| WeekWindow.WeekStartDates | src/yohonhl/api.py:44-60 | the text anchors exist exactly when both dates parse; the start date's error is reported first, then the end date's |
| WeekWindow.WeekStartDatesMeaning | src/yohonhl/api.py:44-60 | the anchor count follows the day span, and anchor i is canonical text naming the date 7*i days after the start |
| WeekWindow.WeekStartDatesFormats | src/yohonhl/api.py:60 | the text anchors are the formatted date anchors, in order |
| WeekWindow.WeekStartDatesSingle | src/yohonhl/api.py:47-52 | a span shorter than a week, or inverted, gives one anchor: the formatted start date |
| WeekWindow.WeekStartDatesJanuary | src/yohonhl/api.py:44-60 | 2024-01-01 to 2024-02-01 gives the five anchors 01-01, 01-08, 01-15, 01-22, 01-29 |
| WeekWindow.WeekStartDatesInvertedExample | src/yohonhl/api.py:49-52 | 2024-02-01 to 2024-01-01 gives just 2024-02-01 |
| WeekWindow.WeekStartDatesShortExample | src/yohonhl/api.py:47-52 | 2024-04-08 to 2024-04-13 gives just 2024-04-08 |
| Endpoints.KeepTruthy | src/yohonhl/api.py:76 | the filter keeps no more than it gets, and a body is kept exactly when it was fetched and is truthy |
| Endpoints.KeepTruthyAppend | src/yohonhl/api.py:75-76 | the filter works piecewise over concatenation, so surviving bodies stay in request order |
| Endpoints.KeepTruthyCount | src/yohonhl/api.py:76 | the number of survivors is the number of present, truthy outcomes |
| Endpoints.KeepTruthyAllPresent | src/yohonhl/api.py:75-76 | when every response is an OK, truthy body, the result is all of them in request order |
| Endpoints.KeepTruthyOneMissing | src/yohonhl/api.py:63-76 | one not-OK response among N leaves exactly N-1 documents |
| Endpoints.FetchAll | src/yohonhl/api.py:71-76 | every returned document is a truthy body fetched from one of the URLs, and every such body is returned |
| Endpoints.FetchAllOutcomes | src/yohonhl/api.py:74-76 | the filter is applied to the outcomes of the URLs taken in request order |
| Endpoints.ScheduleUrls | src/yohonhl/api.py:97-110 | no start date requests `/schedule/now`; a malformed start date is an error; a success always has at least one URL |
| Endpoints.ScheduleUrlsMeaning | src/yohonhl/api.py:101-109 | with a start date, the call succeeds exactly when the given dates parse, and URL i is the schedule prefix plus the canonical text of the date 7*i days after the start |
| Endpoints.ScheduleUrlsNoEnd | src/yohonhl/api.py:104-109 | a missing end date requests exactly one week, at the normalised start date |
| Endpoints.WeeklySchedules | src/yohonhl/api.py:97-110 | the schedules succeed exactly when the URLs do, and a document is returned exactly when it is a truthy body fetched for one of those URLs |
| Endpoints.GameInfoUrls | src/yohonhl/api.py:117 | one URL per game id |
| Endpoints.GameIdOfGameInfoUrl | src/yohonhl/api.py:117 | the game id can be read back out of its game-center URL |
| Endpoints.GameInfoUrlsMeaning | src/yohonhl/api.py:113-117 | URL i names id i, and two URLs are equal exactly when their ids are, so duplicate ids are requested twice |
| Endpoints.GameInfo | src/yohonhl/api.py:113-118 | at most one document per id, and a document is returned exactly when it is a truthy body fetched for one of the ids |
| Endpoints.GameInfoUrlsOne | src/yohonhl/api.py:115-117 | a single id is requested exactly as the one-element list of that id: one URL, for that id |
| Endpoints.GameInfoOne | src/yohonhl/api.py:113-118 | a single game gives its one document, or nothing when the response was not OK or the body is falsy |
| Endpoints.GameInfoUrl | src/yohonhl/api.py:117 | no contract of its own: `Endpoints.GameIdOfGameInfoUrl` reads the id back out of it and `Endpoints.GameInfoUrlsMeaning` shows distinct ids give distinct URLs |
| Digits.IntTextRoundTrip | src/yohonhl/api.py:117 | the decimal text of an int, with its sign, reads back as that int |
| Digits.IntTextInjective | src/yohonhl/api.py:117 | distinct ids have distinct texts |
| Linescore.GoalsFromLinescores | src/yohonhl/stats.py:30-33 | a document without `games` raises the `KeyError` for `games`; `Linescore.GoalsFromLinescoresMeaning` gives the other case |
| Linescore.GamesGoals | src/yohonhl/stats.py:32-65 | no contract of its own: `Linescore.GamesGoalsSucceeds` and `Linescore.GamesGoalsProvenance` characterise it |
| Linescore.GameGoals | src/yohonhl/stats.py:34-45 | no contract of its own: `Linescore.GameGoalsMeaning` characterises it |
| Linescore.ReadHeader | src/yohonhl/stats.py:36-40 | no contract of its own: `Linescore.GameGoalsMeaning` (through `GameReadable`) and `Linescore.BadHeaderIsFatal` characterise it |
| Linescore.EntryGoal | src/yohonhl/stats.py:47-63 | no contract of its own: `Linescore.EntryGoalMeaning` characterises it |
| Linescore.EntriesGoals | src/yohonhl/stats.py:46-64 | one goal per entry on success; `Linescore.EntriesGoalsMeaning` gives the rest |
| Linescore.EntryGoalMeaning | src/yohonhl/stats.py:46-64 | one goal entry yields a `Goal` exactly when all its keys are present and its clock parses, and the `Goal` carries the game's and the entry's fields |
| Linescore.EntriesGoalsMeaning | src/yohonhl/stats.py:46-64 | a game's goal list succeeds exactly when every entry is complete, and goal i describes entry i |
| Linescore.GameGoalsMeaning | src/yohonhl/stats.py:33-64 | one game succeeds exactly when it is readable, and its goals describe its own entries in order |
| Linescore.GamesGoalsSucceeds | src/yohonhl/stats.py:30-65 | extraction succeeds exactly when every game is readable; an unfinished game never fails, whatever keys it lacks |
| Linescore.GamesGoalsProvenance | src/yohonhl/stats.py:30-65 | on success there is one `Goal` per goal entry of the finished games, in game order then entry order, each describing its game and entry |
| Linescore.GoalsFromLinescoresMeaning | src/yohonhl/stats.py:30-65 | with a `games` list the call succeeds exactly when every game is readable, and then returns one `Goal` per goal entry of the finished games, in order, each describing its game and entry |
| Linescore.ContributionsFromFinishedGames | src/yohonhl/stats.py:33-46 | every goal source is an entry of a finished game of the input that has a `goals` key |
| Linescore.GamesGoalsAppend | src/yohonhl/stats.py:33-65 | extraction distributes over concatenating game lists, and the first failure wins |
| Linescore.SingleGame | src/yohonhl/stats.py:33-65 | a one-game list yields exactly that game's goals or error |
| Linescore.SkippedGameNeutral | src/yohonhl/stats.py:33-45 | appending a game that contributes nothing leaves the result unchanged |
| Linescore.UnfinishedGameSkipped | src/yohonhl/stats.py:34-35 | a game whose state is not `OFF` can be removed from anywhere in the list without changing the result |
| Linescore.GoallessGameSkipped | src/yohonhl/stats.py:41-45 | a finished, readable game without `goals` can be removed without changing the result |
| Linescore.BadHeaderIsFatal | src/yohonhl/stats.py:33-45 | a finished game with a missing header key or a bad date, after only readable games, ends the whole call with that error, even if it has no `goals` key |
| Linescore.IncompleteEntryIsFatal | src/yohonhl/stats.py:46-62 | one incomplete goal entry in a finished game makes the whole extraction fail |
| Linescore.FixtureGameDate | tests/conftest.py:18 | the fixture's date text parses to 2024-01-21 |
| Linescore.FixtureClocks | tests/conftest.py:20-34 | the fixture's clocks parse to 0:11:57 and 0:16:40 |
| Linescore.FixtureGoals | tests/conftest.py:14-100 | the fixture document (one finished game with two goals, one live game, one finished game without goals) yields exactly the two expected goals |

## Left out

- HTTP, `aiohttp` sessions, `asyncio.gather` and the thread-pool runner `_run_async` are left out, because they are I/O and concurrency. The fetch of one URL (`_get_endpoint_async`) is a function parameter.
- Transport exceptions raised inside `gather` are not modelled. The code lets them propagate and the model has no exception channel for the fetch.
- Logging calls are not modelled. They have no effect on results.
- `get_goals` is not modelled. It calls `api.get_linescores`, which is not part of this model.
- The command-line entry point `__main__.py` is not modelled.
- Endpoints the tests mention but `api.py` no longer defines are not modelled: team schedules, `get_schedule`, `get_linescores` and box scores.
- DateText.Parse: digits are ASCII only. Python's `\d` also accepts other Unicode decimal digits, and its format regex is case-insensitive, which has no effect on digits and dashes.
- DateText.Format: years below 1000 are zero-padded to four digits. glibc's `strftime("%Y")` writes them unpadded, and `normalize_datestr` then yields a text that `parse_date` rejects.
- ClockText.ParseClock: ASCII digits only, for the same reason as Parse.
- Linescore.EntryGoal: JSON values have the types the code expects. `int()` applied to strings or floats, and values of the wrong type, are not modelled.
- Linescore.GameGoals: a `goals` key holding `null` makes the code raise `TypeError`. The model has no null there.
- Linescore.Goal: the code checks nothing about the running scores, so no member states a score-ordering property.
- Endpoints.Json: numbers are integers. Floating point is left out.
