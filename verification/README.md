# SideScore scoreboard core, modelled in Dafny

SideScore is a small Flask service. It shows live scores and the day's upcoming fixtures for the
four English professional leagues (Premier League, Championship, League One, League Two). It reads
the API-Football feed and serves one JSON document at `/api/scores`. This project models the logic
behind that document and proves properties of it:

- `season_start_year` (`season.dfy`): the season a date belongs to.
- `cached` and `CACHE` (`cache.dfy`): the time-to-live response cache. It is a class whose entry
  map its method updates. The clock reading and the fetcher are parameters.
- `team_abbr`, `format_minute`, `normalize_fixture` (`fixtures.dfy`): turning one raw feed record
  into the flat match record the page shows.
- The merge in `scores` (`scores.dfy`, with the stable kick-off sort in `sorting.dfy`):
  - live fixtures are grouped by league in feed order;
  - for each league of the fixed table, its live fixtures are taken;
  - if it has none, the day's fixtures that have not started are taken, sorted by kick-off time.
- The cache keys used by `scores` (`scores.dfy`).

Support modules:

- `json.dfy` models how the code reads JSON with `dict.get`:
  - an absent key;
  - a `null` value;
  - `x or default`.
- `text.dfy` models the Python string built-ins the core relies on:
  - `strip`, `split()` and `upper`;
  - `str(int)`;
  - string order.
- `seqs.dfy` models a list comprehension with a filter.

Raw feed records are datatypes. Each sub-object the code reads with `x.get(k, {}) or {}` is an
`Option`, where `None` stands for missing, null or empty. The normalised record is the datatype
`Match`. The feed's lists and the day fixtures are inputs:

- `liveItems` is the live feed;
- `dayItems(leagueId)` gives one league's fixtures of the day.

## Model

| member | source | states |
|---|---|---|
| Season.SeasonStartYear | app.py:36-42 | The season is the year or the year before; it is the year exactly when the month is July or later |
| Season.SeasonWindow | app.py:36-42 | A date belongs to season `s` exactly when it lies between July of `s` and June of `s+1` |
| Season.SeasonMonotonic | app.py:36-42 | A later date never belongs to an earlier season |
| TtlCache.Cache.constructor | app.py:31 | The cache starts empty |
| TtlCache.Cache.Cached | app.py:55-62 | The fetcher runs exactly when no entry for the key is younger than the TTL. A hit returns the stored data and changes nothing. A miss returns the fetcher's outcome. On success the miss stores it under the key with the current time, leaving every other key as it was. On an exception the miss stores nothing |
| TtlCache.FreshWindow | app.py:58-61 | Data stored at time `t` is served from the cache exactly for calls made before `t + ttl` |
| TtlCache.StoreKeepsOtherKeys | app.py:61 | Storing under one key never changes whether another key is served from the cache |
| PyText.Strip | app.py:67 | `strip()` gives a slice of its input. Everything cut off before and after the slice is whitespace, and the slice neither starts nor ends with whitespace |
| PyText.StripEmptyIff | app.py:67-68 | A stripped text is empty exactly when the text is all whitespace |
| PyText.Words | app.py:72 | Every word of `split()` is non-empty and holds no whitespace |
| PyText.WordsSplitAtSpace | app.py:72 | `split()` breaks the text at each whitespace character: the words of `a + c + b`, with `c` whitespace, are the words of `a` followed by the words of `b` |
| PyText.WordsOfWord | app.py:72 | A non-empty text without whitespace is a single word |
| PyText.WordsCoverText | app.py:72 | The words of `split()`, joined, are exactly the text's non-whitespace characters in order |
| PyText.WordsEmptyIff | app.py:72 | `split()` yields no word exactly when the text is all whitespace |
| PyText.UpperIdempotent | app.py:69-70 | Upper-casing twice is upper-casing once |
| PyText.IntToStringRoundTrip | app.py:88-89 | The decimal text of an integer reads back as that integer |
| PyText.IntToStringInjective | app.py:171 | Different integers have different decimal texts |
| PyText.StrLeTotal | app.py:176 | Any two strings are ordered one way or the other |
| PyText.StrLeTransitive | app.py:176 | The string order is transitive |
| PyText.StrLeAntisymmetric | app.py:176 | Two strings each at most the other are equal |
| Fixtures.NotStartedIsNotLive | app.py:103-104 | "NS" and the empty code are not in-play codes, and "HT" is |
| Fixtures.NameAbbr | app.py:72-73 | The name fallback is at most three characters long |
| Fixtures.NameAbbrEmptyIff | app.py:72-74 | For a name not starting with whitespace, the fallback is empty exactly when the name is |
| Fixtures.NameAbbrFromName | app.py:72-74 | Every character of the fallback comes from the name |
| Fixtures.TeamAbbrFromCode | app.py:67-69 | A code that is non-empty once stripped is returned stripped and upper-cased |
| Fixtures.TeamAbbrFromName | app.py:67-74 | Without a usable code, the result is at most three characters; it is empty exactly when the stripped name is empty or missing |
| Fixtures.TeamAbbrIsUpper | app.py:65-74 | The abbreviation is always upper case |
| Fixtures.TeamAbbrOfNoTeam | app.py:98-99 | A missing team object abbreviates to "" |
| Fixtures.ClockOf | app.py:77-89 | The clock a status describes. It is half time exactly when the short code is "HT". Otherwise there is no clock exactly when elapsed is missing. Added time is shown exactly when `extra` is present and non-zero |
| Fixtures.FormatMinuteRoundTrip | app.py:77-89 | The minute label reads back as exactly the clock the status describes, so labels of different clocks never coincide |
| Fixtures.IdText | app.py:110 | A missing fixture id prints as "None" |
| Fixtures.NormalizeFixture | app.py:92-121 | A fixture is in play exactly when its short status is one of 1H, 2H, HT, ET, P, BT. It is upcoming exactly when the status is "NS". It is never both. Goals pass through unchanged, with no default of 0 |
| Fixtures.NormalizeHalfTime | app.py:83-84 | A fixture at half time is in play and shows "HT" |
| Fixtures.NormalizeMissingParts | app.py:93-111 | A missing fixture object gives id "None", status "", neither flag, no kick-off and no minute. A missing league gives league id 0. Missing teams give empty abbreviations |
| Fixtures.NormalizeMissingFields | app.py:101-111 | A missing or null league id gives league id 0. A missing short status gives status "", a null one gives no status; in both cases neither flag is set. A present short status is kept as it is |
| KickoffSort.InsertByKickoff | app.py:176 | Inserting one fixture adds exactly that fixture |
| KickoffSort.SortIsSorted | app.py:176 | The sorted list is ordered by kick-off text, a missing kick-off read as "" |
| KickoffSort.SortPermutes | app.py:176 | Sorting neither drops nor duplicates a fixture |
| KickoffSort.SortIsStable | app.py:176 | Fixtures with the same kick-off text keep their relative order |
| KickoffSort.SortedStableUnique | app.py:176 | Two lists that are both ordered by kick-off and agree on the order within each kick-off text are equal |
| KickoffSort.SortByKickoffCorrect | app.py:176 | The sort is ordered, a permutation and stable. It is the only such arrangement, so it equals the result of any stable sort such as Python's `list.sort` |
| Scores.LeagueTableDistinct | app.py:23-28 | No two leagues of the table share a slug or an id |
| Scores.GroupByLeague | app.py:147-150 | Each league id in the feed is mapped to exactly its fixtures, in feed order. No other id is a key |
| Scores.LeagueBoard | app.py:154-183 | One pass of the league loop builds exactly the entry `BoardFor` describes |
| Scores.Scores | app.py:130-183 | The response carries the London timezone and the season of the date. Its keys are exactly the table's slugs. Each league's entry is the one `BoardFor` describes, from the normalised live feed and that league's day fixtures |
| Scores.LeagueFixturesExact | app.py:147-150 | A league's live list holds exactly the feed's fixtures of that league, each as often as in the feed. Splitting the feed splits the list in the same order |
| Scores.BoardForSpec | app.py:153-183 | A league's entry has the table's id and name, and its live list is that league's live fixtures. The upcoming list is empty when the live list is not. Otherwise it holds exactly the day's fixtures that have not started, sorted by kick-off, ties in feed order |
| Scores.LiveFixturePlacement | app.py:145-181 | A live fixture appears under its own league and under no other; fixtures of other league ids appear nowhere |
| Scores.DayKeyParts | app.py:171 | A day key is "day:", the league id, a colon and the rest; the id holds no colon |
| Scores.DayKeysDistinct | app.py:136-171 | Day keys of different leagues never coincide, and no day key equals the live key |

## Left out

- HTTP access (`api_get`, app.py:45-52) is not modelled. A fetch becomes an input: the live feed
  list, the per-league day lists, or a fetcher function value for the cache.
- The Flask application, its routes and the page (app.py:7, 12, 124-126, 129, 185-190, 193-194)
  are not modelled. `Scores.Scores` returns the response value; its JSON serialisation is left out.
- Environment loading and the API key check (app.py:8-18) are not modelled. The cache TTLs
  (app.py:32-33, defaults 30 and 300 seconds) are parameters of `TtlCache.Cache.Cached`.
- The clock and the London time zone (app.py:20-21, 131-133) are not modelled. `Scores.Scores`
  takes the year and month of the current London date. `generatedAt` is left out of the response,
  and the date text `today` is an ordinary parameter of `Scores.DayKey`.
- `time.time()` is a float. `TtlCache.Cache.Cached` takes the time as whole seconds.
- Scores.Scores: does not call the cache. It takes the lists that the two cached fetches return.
  An exception raised by a fetch, which would end the request, is therefore not modelled. The
  cache's own behaviour, including exceptions, is modelled by `TtlCache.Cache.Cached`.
- PyText.Upper: upper-cases ASCII letters only. Python's `str.upper` also maps other scripts and
  can lengthen a string (for example "ß" becomes "SS").
- Feed values of unexpected JSON types (a string id, a float minute) are not modelled. Ids, league
  ids, elapsed and added minutes are integers, and codes, names and dates are strings.
- The live list of a league is every live-feed fixture with that league id. The code does not
  check `isLive` there, and neither does the model. Goals are passed through as the feed gives
  them (`null` stays `null`), following the code rather than a default of 0.
