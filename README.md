# sorare-ml: score collection and training-set preparation, modelled in Dafny

sorare-ml downloads football players' SO5 scores from the Sorare GraphQL API into one CSV file
per player, and turns those files into a long-format training table (`datetime`, `value`,
`series_id`) for a forecasting library. This project models the sequential logic of those
scripts and proves what it promises:

- **Paging** — the cursor-paginated collection loop. A run is described by its request log.
  A source has exactly one complete log, so the result is deterministic. The first request
  carries the empty cursor. Each later request carries the end cursor of the page before it.
  The log stops at the first page without a next page. The result is every page's nodes in
  arrival order. A failed request aborts the collection.
- **GameDate** — `format_datetime`: a parse with `%Y-%m-%dT%H:%M:%SZ` (including the range
  and days-in-month checks of building a datetime) and a print with `%Y-%m-%d %H:%M:%S`.
- **ScoreDownload** — dl_so5.py and dl_my_players.py. They carry identical copies of
  `fetch_player_scores` and `format_datetime` and the same per-player CSV step, modelled once.
  The modelled steps are:
  - `fetch_player_scores`: the cursor is taken only while a next page is reported;
  - reversing the collected list in place (an `array`);
  - the row-writing loop;
  - the loops over players (a user's cards) and over a league's clubs and their players.
- **PlayerSearch** — search_player.py. It has the variant of the loop that takes the cursor
  after every page, and the `player_data` filter and projection.
- **Series** — the per-file preprocessing shared by the three training scripts:
  - `.csv` names;
  - the series id (`split(".")[0]`);
  - the zero-score filter;
  - the synthetic dates, consecutive days ending on 2024-02-19;
  - `pd.concat`.
- **TrainGlobal**, **Refit**, **TrainPlayer** — the three training scripts' preparation loops:
  - TrainGlobal: nested folder and file loops, 40-row threshold, series-id de-duplication;
  - Refit: one folder, 20-row threshold, no de-duplication;
  - TrainPlayer: one file, no threshold.
- **Elapsed** — the hours/minutes/seconds split of the "Time elapsed" message.

The network is a total function from request (cursor, page size) to response. A response is
either a page or a raised request. Directory listings and file contents are input sequences.
Written files are output values (path and rows). Dates in the training table are day numbers
counted from 1970-01-01 (`End` = 19772 is 2024-02-19).

The comments at train_global.py:49 and refit.py:41 say "in reverse order". The code assigns
ascending dates, and the model follows the code.

## Model

| member | source | states |
|---|---|---|
| Paging.LogsAgreeUpTo | dl_so5.py:55-67 | Two complete request logs of one source agree request by request wherever both are defined |
| Paging.FinalIsLast | dl_so5.py:58-65 | The loop stops exactly after the first final page: only the last request of a complete log receives a final response (no next page, or a raise) |
| Paging.LogUnique | dl_so5.py:55-69 | A source has exactly one complete request log, so the loop issues the same requests whenever it runs against the same pages |
| Paging.CollectIsOutcome | dl_so5.py:55-69 | The collection result is that of the one complete log: the gathered nodes, or Aborted if its last request raised |
| Paging.SinglePage | dl_so5.py:55-69 | If the first page (empty cursor) is final, exactly one request is made and its nodes are the whole result |
| Paging.EmptyPageContinues | dl_so5.py:62-67 | A page with no nodes that reports a next page does not stop the loop; the second request carries its end cursor |
| Paging.GatheredPrefix | dl_so5.py:63 | The nodes gathered over the first k requests are a prefix of the whole result: earlier pages' nodes come first |
| Paging.GatheredPage | dl_so5.py:61-63 | The nodes of request k sit in the result, in page order, directly after the nodes of the requests before it |
| Paging.ThreePages | dl_so5.py:55-69 | Three pages of two nodes, the last final, give exactly the requests with cursors "", p1, p2 and all six nodes in arrival order |
| Paging.FailureOnSecondPage | dl_so5.py:58-60 | A request that raises on the second page ends the collection after two requests with no partial result |
| GameDate.PaddedNumber | dl_so5.py:98-100 | Reading a digit field and printing it back zero-padded at the same width gives the same digits |
| GameDate.NumberPadded | dl_so5.py:98-100 | Printing a field zero-padded and reading it back gives the number, when it fits the width |
| GameDate.RenderFields | dl_so5.py:100 | Where each field, separator and suffix sits in a rendered date-time |
| GameDate.SameCharacters | dl_so5.py:96-100 | A rendering whose fields print as the input's digit fields matches the input character by character, with a space in place of `T` and no `Z` |
| GameDate.CsvTextOfParsed | dl_so5.py:96-100 | The CSV rendering of a parsed date keeps the input's characters, with a space in place of `T` and no `Z` |
| GameDate.FormatDatetime | dl_so5.py:96-100 | Input without the `YYYY-MM-DDTHH:MM:SSZ` layout is rejected; an accepted date keeps every digit and separator in place, puts a space where `T` was and drops the `Z` (dl_my_players.py:94-98 is the same function) |
| GameDate.ParseApiText | dl_so5.py:98 | The API's rendering of a date-time parses back to it exactly when it is a valid moment |
| GameDate.FormatApiText | dl_so5.py:96-100 | Round trip: the API rendering of a moment is accepted exactly when the moment is valid, and becomes the CSV rendering of the same moment |
| GameDate.LeapDay | dl_so5.py:98 | 29 February is accepted exactly in leap years |
| ScoreDownload.FetchPlayerScores | dl_so5.py:55-69 | The requests made form the complete request log (empty first cursor, end cursor taken only while a next page is reported, stop at the first final page), and the result is that log's nodes in arrival order, or Aborted on a raise (also dl_my_players.py:54-68) |
| ScoreDownload.ReversedIndex | dl_so5.py:121 | Element k of the reversal is element n-1-k of the list |
| ScoreDownload.ReversedByIndex | dl_so5.py:121 | A list whose element k is element n-1-k of another is that list's reversal |
| ScoreDownload.ReverseInPlace | dl_so5.py:121 | The array afterwards holds the reversal of its old contents |
| ScoreDownload.CsvRowFor | dl_so5.py:128-131 | A node gets a row exactly when its date formats; the row carries the node's score and the formatted date |
| ScoreDownload.RowsUntilFailureSpec | dl_so5.py:127-131 | The writer emits one row per item from the start, each that item's row, and stops exactly at the first item without a row; the flag is set exactly when every item got its row |
| ScoreDownload.WriteRows | dl_so5.py:127-131 | The writing loop over the array emits exactly the rows and flag of the writer specification (`CsvRows`, rows until the first date that does not format) |
| ScoreDownload.RowsMatch | dl_so5.py:127-131 | Those facts determine the output: any rows and flag meeting the writing loop's exit conditions are the writer's output |
| ScoreDownload.SavePlayer | dl_so5.py:116-131 | One player's turn writes what `PlayerStep` specifies: nothing on a raise (the run stops), nothing for no scores, else one file of the reversed scores |
| ScoreDownload.RowsOldestFirst | dl_so5.py:121-131 | Rows written for the reversed list: row i is the row of the item i places from the end; all rows are written exactly when every item has a row |
| ScoreDownload.PlayerFile | dl_so5.py:119-131 | A player with scores gets exactly one file `<data_dir>/<slug>.csv`, its rows oldest first, one per node with that node's score, and the run goes on exactly when every date formats |
| ScoreDownload.NoScoresNoFile | dl_so5.py:117-119 | An empty score list writes no file and the run goes on; a raised fetch writes no file and the run stops |
| ScoreDownload.SavePlayers | dl_my_players.py:103-119 | The loop over the user's cards handles the players in listed order, each as `PlayerStep`, until one raises |
| ScoreDownload.CombineNext | dl_my_players.py:103-119 | After turns that did not raise, one more turn appends its files and its flag decides whether the run goes on |
| ScoreDownload.CombineStopped | dl_my_players.py:103-105 | After a player raises, later players write nothing |
| ScoreDownload.CombineAppend | dl_my_players.py:103-119 | Turns `a + b` write the files of the turns `a` and then, unless one of those raised, those of the turns `b` |
| ScoreDownload.StepsAppend | dl_so5.py:103-117 | The players of `a + b` all terminate when those of `a` and of `b` do, and their turns are the turns of `a` followed by those of `b` |
| ScoreDownload.TerminateAppend | dl_so5.py:103-115 | The players of `a + b` terminate when those of `a` and of `b` do |
| ScoreDownload.StepsPrefix | dl_so5.py:103-117 | The first k players terminate and their turns are the first k turns |
| ScoreDownload.SaveLeague | dl_so5.py:103-131 | The club loop with its nested player loop writes exactly what handling all the league's players, club after club, as one list would write |
| ScoreDownload.LeaguePlayersPrefix | dl_so5.py:103-115 | The players of the first c clubs come first among the league's players |
| ScoreDownload.NextClub | dl_so5.py:103-115 | Taking one more club appends its players; its players, and all players up to it, terminate when the league's do |
| ScoreDownload.TerminateParts | dl_so5.py:103-115 | The players of a prefix of terminating players, and those of its last part, terminate |
| PlayerSearch.FetchAllPlayers | search_player.py:29-63 | With the cursor taken after every page, the requests are still the complete request log (page size 100) and the result is its nodes in arrival order, or Aborted on a raise |
| PlayerSearch.PlayerData | search_player.py:68 | A result exists exactly when no card has a null player; it has at most as many entries as cards, each the player of a card in the list |
| PlayerSearch.PlayerDataAppend | search_player.py:68 | Card order is kept: the data for `a + b` is the data for `a` followed by that for `b` |
| PlayerSearch.PlayerDataLength | search_player.py:68 | Exactly the cards without a `player` key are dropped: the length is the card count minus those |
| Series.SeriesId | train_global.py:20 | The id is a prefix of the file name, contains no `.`, and is followed by a `.` unless it is the whole name |
| Series.SeriesIdUnique | train_global.py:20 | Those three facts determine the id: any such prefix is the id |
| Series.CsvNameOfTarget | train_player.py:15-18 | The name `<target>.csv` is a `.csv` name and its id is `target` when `target` has no `.` |
| Series.NonZero | train_global.py:34 | Every kept row has a non-zero value, and there are no more rows than in the input |
| Series.NonZeroAppend | train_global.py:34 | Filtering keeps order: the filter of `a + b` is the filter of `a` followed by that of `b` |
| Series.NonZeroCounts | train_global.py:34 | Exactly the zero rows are removed: each non-zero row occurs as often as in the input, each zero row never |
| Series.DateRange | train_global.py:47 | `pd.date_range` with n periods has n days |
| Series.DateRangeIndex | train_global.py:46-47 | Day i of the range is the start plus i |
| Series.Dated | train_global.py:37-50 | Dating and tagging keeps the row count |
| Series.DatedRows | train_global.py:37-50 | Row i of n is dated `End - (n-1-i)` and keeps its value and the series id; days are consecutive and the last is 2024-02-19 |
| Series.Prepared | refit.py:26-42 | A file's table has one row per non-zero score, dated up to `End` and tagged with the file's series id |
| Series.Flatten | train_global.py:57 | The concatenation's row count is the sum of the tables' row counts |
| Series.Concat | train_global.py:57 | Concatenation fails exactly when there is no table; otherwise it is the tables' rows in order |
| Series.FlattenSlot | refit.py:45-48 | Table i occupies the rows of the concatenation right after all tables before it |
| TrainGlobal.ConsiderStep | train_global.py:18-54 | A file leaves the state alone or appends one table under an id not taken before and takes that id; a too-short file leaves the state, and so its id, untouched; a `.csv` file with an id not taken and at least 40 non-zero rows is appended and takes its id |
| TrainGlobal.SeenIsIds | train_global.py:21-23 | In a good state an id counts as processed exactly when an accepted table carries it |
| TrainGlobal.FileAccepted | train_global.py:15-54 | Within a folder's file loop, a file is accepted exactly when its name ends in `.csv`, no table accepted before it has its series id, and it has at least 40 non-zero rows; accepted, it appends its table and takes its id, otherwise the state is unchanged |
| TrainGlobal.ConsiderKeepsGood | train_global.py:23-54 | One file keeps the invariant: tables of at least 40 rows, each under one id and dated up to `End`, pairwise distinct ids, taken ids exactly the tables' ids |
| TrainGlobal.ConsiderAllKeepsGood | train_global.py:16-54 | A league folder's file loop keeps that invariant |
| TrainGlobal.ScanGood | train_global.py:12-54 | After the whole walk, no two accepted series share an id, each has at least 40 rows dated up to 2024-02-19, and the id set is exactly the accepted ids |
| TrainGlobal.ShortFileDoesNotBlock | train_global.py:23-25 | A too-short `a.csv` does not block a later `a.old.csv`, which is accepted under `a` |
| TrainGlobal.BuildTrainingTable | train_global.py:12-57 | The nested folder and file loops, with `dfs` and the id set, produce the concatenation of the tables the walk specification accepts, or fail when none is accepted |
| Refit.AcceptedTablesFrom | refit.py:13-45 | Every accepted table is the table of a `.csv` file with at least 20 non-zero rows, every such file contributes its table, and there are no more tables than files |
| Refit.AcceptedTablesAppend | refit.py:13-45 | Listing order is kept: the tables for the files `a + b` are those for `a` followed by those for `b` |
| Refit.AcceptedTablesShape | refit.py:13-45 | Every accepted table has at least 20 rows, all under one id and dated on consecutive days up to `End` |
| Refit.SameIdTwice | refit.py:17-45 | No de-duplication: `a.csv` and `a.b.csv` both contribute a table under id `a` |
| Refit.BuildRefitTable | refit.py:13-48 | The file loop produces the concatenation of the accepted tables in listing order, or fails when none is accepted |
| TrainPlayer.PrepareTarget | train_player.py:15-41 | One row per non-zero score, in order and with the same value; row i of n dated `End - (n-1-i)`, the last on 2024-02-19; every row tagged with the id of `<target>.csv`, which is `target` when it has no `.`; no threshold |
| Elapsed.SecondsField | train_global.py:97 | `timedelta.seconds` is below one day and differs from the duration by whole days |
| Elapsed.PrintedPartsSum | train_global.py:135 | The printed hours, minutes and seconds have minutes and seconds below 60 and add up to `duration.seconds` |
| Elapsed.PrintedPartsDropDays | train_player.py:116 | A 25-hour run is printed as 1 hour, 0 minutes, 0 seconds |
| Elapsed.ElapsedPartsSum | train_global.py:135 | The split of the whole duration adds up to it, with minutes and seconds below 60, and agrees with the printed split for runs under a day |

## Left out

- The GraphQL transport, query text, API key loading and `asyncio`. Requests are a deterministic function; pages are fetched strictly one after the other.
- A `null` end cursor: cursors are strings, so the text the Python formatting would send for `None` is not modelled.
- The club query of dl_so5.py (`fetch_club_players`) and the cards query of dl_my_players.py (`fetch_my_players`). Their results are inputs: the clubs with their player slugs, and the list of slugs. A card whose `player` is null raises at dl_my_players.py:104; this is not modelled.
- The JSON dumps (dl_so5.py:109-110, search_player.py:70-71), the CSV header line, and file overwrites. A run's output is the sequence of files written, each with its rows.
- FormatDatetime: weaker than the parser it models. It rejects fields written with fewer digits than their width (such as `2024-2-1T…`), which `strptime` accepts. It also writes years below 1000 with four digits, as the pattern's width says, whatever the platform's `strftime` does. Its digits are the ASCII digits only: `strptime` matches `\d`, which also takes other Unicode decimal digits (such as `٢٠٢٤-01-01T00:00:00Z`) and prints them back in ASCII; such input is rejected here.
- SavePlayers, SaveLeague: require that every listed player's page source ends, including players after one whose fetch raises, which the scripts never fetch. Termination is stated for the whole list so that the run can be defined player by player.
- Reading CSV files with pandas (`parse_dates`, missing columns, NaN scores). A file is its name and its (datetime text, score) rows, and scores are exact reals.
- Directory entries that are neither league folders nor files, and a league-folder entry ending in `.csv` that is not a readable file.
- The forecasting with AutoTS (model construction, fit, predict, templates, forecast tables), scrape.py (browser automation), the `print` messages and the clock reads. The elapsed time is a whole number of seconds, taken as given and never negative.

## Findings

| source | as written | input that shows it | evidently intended | confidence | as-written member | corrected member |
|---|---|---|---|---|---|---|
| train_global.py:135 (also train_player.py:116) | hours, minutes and seconds are taken from `duration.seconds`, which leaves out the whole days of the duration | a run of 25 hours (90000 s) is reported as 1 hours, 0 minutes, 0 seconds | split the whole duration (`total_seconds()`), so the parts add up to the elapsed time | medium, not executed | Elapsed.PrintedPartsDropDays | Elapsed.ElapsedPartsSum |
