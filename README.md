# 2minlog examples, modelled in Dafny

2minlog is a logging service. Devices post records to a dataset, and a user's
Python script turns the dataset into an image. The example scripts modelled
here are the following:

- `00_hello_world.py` is the boilerplate handler. It coerces every column to
  numbers where that loses nothing, plots the frame and answers the image
  base64-encoded. Its local runner reads CSV files into frames.
- `server.py` is a local stand-in for the service:
  - `/log` appends the request's parameters to a raw JSON-lines log;
  - each append rewrites a CSV table of the whole log;
  - a GET to `/log` then starts the plotting script; a POST to `/log` does not;
  - `/img` serves the image.
- `internet-avaibility.py` works on pings logged once a minute. It builds five
  week matrices, one cell per minute, each holding a record code: future,
  out of range, missing or present.
- `interval-ping.py` computes how long to sleep until second :30 of a minute.
- `main.py` of the Nettigo weather station has two parts:
  - it gathers, from the station's paired type/value columns, the last two
    days of temperature, humidity and particle readings;
  - it shades the nights between the first and last reading.
- `synology-temperature.py` walks the disk table of each Synology NAS over
  SNMP. It turns the answer into one record per disk and waits for the next
  five-minute mark.
- `synology-graph.py` plots the last week of disk temperatures. It draws one
  panel per (server, disk) pair and uses a coloured line per panel.

The modules are these:

- `Common` holds Python's `str.strip`, `str.split`, `join`, string order and
  sorting.
- `Frames` holds the slice of pandas the scripts use: cells, columns,
  `to_numeric`, and a `DataFrame` class whose columns are assigned in place.
- `Base64` and `ImageResponse` model the answer every handler returns.
- There is one module per script: `HelloWorld`, `LocalServer`,
  `InternetAvailability`, `IntervalPing`, `NettigoWeather`,
  `SynologyTemperature` and `SynologyGraph`.

Where a script changes state step by step, the model is imperative: a method
with a loop, or a class whose fields it updates. Each such method is proved
equal to a specification function. Further lemmas state what the script
promises about that function.

Some inputs are parameters of the model:

- Times are integer microseconds, and the clock reading `now` is a parameter.
- Number parsing (`parse`), date parsing (`toTime`, `parseTime`) and the JSON
  codec (`dumps`, `parse`) are parameters.
- The sunset and sunrise times and the SNMP replies are parameters.
- The image the plotting library would write is a parameter (`image`). The
  files a handler can read are a map from path to contents.

## Model

| member | source | states |
|---|---|---|
| Common.Strip | 00-default_code/00_hello_world.py:88 | the result neither starts nor ends with white space and is no longer than the input |
| Common.StripRemovesSpaceOnly | 00-default_code/00_hello_world.py:88 | `strip` removes only a run of white space at each end: the result is the middle slice between them |
| Common.StripTrailing | 01-local-server/server.py:52 | stripping a trimmed text followed by white space gives the text back |
| Common.Split | 00-default_code/00_hello_world.py:88 | `split` yields at least one piece and no piece holds the separator |
| Common.JoinSplit | 00-default_code/00_hello_world.py:88 | joining the pieces of a split with the separator gives the text back |
| Common.SplitJoin | 01-local-server/server.py:52 | splitting pieces joined by a separator they do not contain gives the pieces back |
| Common.LexLessIsStrictTotalOrder | 01-local-server/server.py:63 | Python's order on `str` is irreflexive, transitive and total |
| Common.InsertSorted | 01-local-server/server.py:63 | inserting into a strictly increasing sequence keeps it strictly increasing and adds exactly the element |
| Common.StrictlySortedUnique | 01-local-server/server.py:63 | two strictly increasing sequences of the same elements are equal, so `sorted(set)` is determined by the set |
| Common.SortedSet | 01-local-server/server.py:63 | the elements of a set in strictly increasing order, each exactly once |
| Common.SortByKey | 25-synology-temperature/synology-graph.py:86 | the result is ordered by the key and is a permutation of the input |
| Frames.ToNumeric | 00-default_code/00_hello_world.py:23 | `to_numeric(errors='coerce')` gives a number or NaN; NaN exactly for a missing value, blank text or text that does not parse |
| Frames.NoneMissing | 00-default_code/00_hello_world.py:25 | `isna().sum()` is zero exactly when no value is missing |
| Frames.Find | 00-default_code/00_hello_world.py:26 | finds a column with the name; None exactly when no column has it |
| Frames.FindFirstUnique | 00-default_code/00_hello_world.py:26 | a column with the name and none before it is the one found |
| Frames.Assigned | 00-default_code/00_hello_world.py:26 | after `df[name] = cells` the column called `name` holds the cells, columns of other names are unchanged, and one column is added only when none had the name |
| Frames.DataFrame.Assign | 00-default_code/00_hello_world.py:26-28 | assigns the column in place: the index and its name are kept and the columns become `Assigned` of the old ones |
| Frames.AssignedAgain | 20-internet-avaibility/internet-avaibility.py:61-67 | assigning the same column twice leaves only the second assignment |
| HelloWorld.ConvertMissingCount | 00-default_code/00_hello_world.py:25 | conversion never lowers the count of missing values, and keeps it exactly when every text value is a number |
| HelloWorld.CoerceColumn | 00-default_code/00_hello_world.py:21-28 | a column is replaced by its numbers when conversion adds no NaN, and is otherwise kept as it was |
| HelloWorld.FirstRepeated | 00-default_code/00_hello_world.py:19-23 | the first column whose name another column shares; every name before it is unique |
| HelloWorld.CoerceNumeric | 00-default_code/00_hello_world.py:18-29 | the columns are coerced in place in order, none dropped or moved, and the index is kept; at the first repeated name `pd.to_numeric` raises TypeError, and only the columns before it are coerced |
| HelloWorld.CoercedHoldsText | 00-default_code/00_hello_world.py:25-37 | after coercion some column holds text exactly when some column does not convert cleanly, which is when `plt.plot` cannot draw the frame |
| HelloWorld.Handler | 00-default_code/00_hello_world.py:31-68 | uses the first dataset or the dummy frame with index `timestamp` = [0, 1]; fails with TypeError at the first repeated column name, fails to plot exactly when some column keeps text, and otherwise saves the image at `/tmp/imgjpg` and answers it with status 200, `image/jpg`, base64 flag set, and a body that decodes to the image |
| HelloWorld.RowsNeverEmptyRow | 00-default_code/00_hello_world.py:93 | the lines of a file never split into `[[]]`, so the skip guard never holds |
| HelloWorld.MaxWidth | 00-default_code/00_hello_world.py:96 | the width of the widest row: no row is wider and some row reaches it |
| HelloWorld.TableColumns | 00-default_code/00_hello_world.py:96 | one column per header name |
| HelloWorld.ToTimes | 00-default_code/00_hello_world.py:98 | all index values convert to times, or the conversion fails at a value that does not |
| HelloWorld.BuildFrame | 00-default_code/00_hello_world.py:96-98 | a shape error exactly when the widest row's width differs from the header's; otherwise a duplicate-label error exactly when the header names `timestamp` twice; on success the index has one converted time per row and the columns are the table without its one `timestamp` column |
| HelloWorld.LoadFrame | 00-default_code/00_hello_world.py:93-98 | an empty file is exactly the `EmptyFile` failure; otherwise there is one row per line after the header |
| HelloWorld.EmptyFileStopsLoad | 00-default_code/00_hello_world.py:93-96 | with the guard as written, an empty dataset file stops the runner |
| HelloWorld.LoadAllSkipsEmpty | 00-default_code/00_hello_world.py:92-99 | the corrected runner never fails on an empty file and loads the same frames as if empty files were absent |
| Base64.ValueOf | 00-default_code/00_hello_world.py:48 | a character's 6-bit value is in range and is written back as that character |
| Base64.ValueOfCharOf | 00-default_code/00_hello_world.py:48 | every 6-bit value is written as a distinct character that reads back as itself |
| Base64.Encode | 00-default_code/00_hello_world.py:48 | four characters per started group of three bytes |
| Base64.DecodeEncode | 00-default_code/00_hello_world.py:48 | decoding the encoding of any byte string gives it back |
| Base64.EncodeInjective | 00-default_code/00_hello_world.py:48 | distinct images have distinct bodies |
| ImageResponse.ReturnImg | 00-default_code/00_hello_world.py:44-56 | a missing file is FileNotFound; otherwise the answer has status 200, the base64 flag set, the given Content-Type and a body that decodes to the file's bytes |
| ImageResponse.SaveThenReturn | 25-synology-temperature/synology-graph.py:131-159 | reading back the path the image was saved at answers that image |
| LocalServer.LinesAsJoin | 01-local-server/server.py:69-70 | text written line by line is the join with a newline after a final empty line |
| LocalServer.SplitLines | 01-local-server/server.py:52 | splitting that text at newlines gives the lines back plus one empty piece |
| LocalServer.ParsedRecordsMembers | 01-local-server/server.py:55-61 | a record is in the parsed log exactly when some line of the log parses to it |
| LocalServer.ParsedRecordsAppend | 01-local-server/server.py:55-61 | the records of two runs of lines are the records of each run, in order |
| LocalServer.MalformedLineSkipped | 01-local-server/server.py:56-61 | a line that is not JSON is skipped without affecting the other records |
| LocalServer.AllKeys | 01-local-server/server.py:63 | a key is in the union exactly when some record has it |
| LocalServer.HeaderIsSortedUnion | 01-local-server/server.py:63 | the header is the only strictly increasing sequence of exactly the records' keys |
| LocalServer.LookupRow | 01-local-server/server.py:66 | the field under a header key is the record's value, or `''` when the record lacks it |
| LocalServer.RowRoundTrip | 01-local-server/server.py:66 | reading a row back under the header gives the record without its blank values |
| LocalServer.RowsOf | 01-local-server/server.py:65-66 | one row per record, each as wide as the header |
| LocalServer.Table | 01-local-server/server.py:63-66 | the header first, then one row per record, every row as wide as the header |
| LocalServer.NothingParsedIsEmptyHeader | 01-local-server/server.py:51-72 | with no parsable line the CSV is one empty header line |
| LocalServer.CsvLines | 01-local-server/server.py:68-70 | the CSV splits at newlines into each row joined by `", "`, then an empty piece |
| LocalServer.SortedKeys | 01-local-server/server.py:63 | the keys gathered one at a time in a loop equal the sorted union |
| LocalServer.ParseLines | 01-local-server/server.py:55-61 | the parsing loop gathers exactly the parsed records |
| LocalServer.Tabulate | 01-local-server/server.py:64-66 | the table loop gives the header then one row per record |
| LocalServer.WriteRows | 01-local-server/server.py:68-70 | the writing loop produces the CSV text of the table |
| LocalServer.ToCsv | 01-local-server/server.py:51-72 | `to_csv` equals the specification `CsvOf` of the log text |
| LocalServer.Stored | 01-local-server/server.py:76-80 | the stored record has no `datasetSecret`, has the request's `timestamp` and keeps every other parameter |
| LocalServer.ParsedDumped | 01-local-server/server.py:82 | when `loads` inverts `dumps`, parsing the log gives back every stored record |
| LocalServer.CsvOfLog | 01-local-server/server.py:81-88 | after any sequence of requests the CSV file is the table of the records already in the raw log when the server started, then every record stored since, in arrival order |
| LocalServer.FirstValues | 01-local-server/server.py:108-111 | a key is present exactly when some query pair has it with a non-blank value, and its value is the first non-blank value given for it |
| LocalServer.Server.constructor | 01-local-server/server.py:9-49 | a server starts on whatever raw log, CSV file and image an earlier run left (all empty only after they are deleted), with no renders |
| LocalServer.Server.HandleData | 01-local-server/server.py:75-89 | appends the stored record's JSON to the log and rewrites the CSV from the whole log; the image is untouched |
| LocalServer.Server.GenerateImage | 01-local-server/server.py:91-103 | one more render; the image is replaced only when the script writes one |
| LocalServer.Server.DoGet | 01-local-server/server.py:106-142 | `/log` stores the query's first values, renders and answers 200 OK; `/img` answers the image as `image/jpeg` or 404 "Image not found"; any other path answers 404 "Path not found" and changes nothing |
| LocalServer.Server.DoPost | 01-local-server/server.py:144-169 | `/log` stores the body (an empty record when it is not JSON) and answers 200 OK; any other path answers 404 and changes nothing |
| LocalServer.InvalidPostStoresOnlyTimestamp | 01-local-server/server.py:152-159 | a body that is not JSON stores a record holding only the timestamp |
| InternetAvailability.StripCell | 20-internet-avaibility/internet-avaibility.py:36 | `.str.strip()` gives text or NaN |
| InternetAvailability.Masked | 20-internet-avaibility/internet-avaibility.py:37-40 | definition of the line-40 mask: blank values become 0, other values their number or NaN; what the column test makes of it is stated by `IsNumeric` |
| InternetAvailability.IsNumeric | 20-internet-avaibility/internet-avaibility.py:42 | the test holds exactly when every value is text that, stripped, is blank or a number |
| InternetAvailability.ConvertColumnCells | 20-internet-avaibility/internet-avaibility.py:35-46 | a numeric column becomes its numbers, with blanks as NaN; any other column becomes its stripped text |
| InternetAvailability.NonNumericNamesOfColumns | 20-internet-avaibility/internet-avaibility.py:44 | only names of columns of the frame are collected for dropping |
| InternetAvailability.RemoveNamed | 20-internet-avaibility/internet-avaibility.py:49 | `drop` keeps only columns whose names are not listed |
| InternetAvailability.DropKeepsNumeric | 20-internet-avaibility/internet-avaibility.py:48-49 | dropping the collected names from the converted columns leaves exactly the converted numeric columns, in order |
| InternetAvailability.ConvertedUpToCells | 20-internet-avaibility/internet-avaibility.py:34-46 | after j steps, the first j columns are converted and the rest are untouched |
| InternetAvailability.AccessibleDistinct | 20-internet-avaibility/internet-avaibility.py:35-36 | when `.str` serves on every column, no column name repeats |
| InternetAvailability.ConvertLoop | 20-internet-avaibility/internet-avaibility.py:32-46 | converts the columns one by one; it fails at the first column `.str` cannot serve, the earlier ones already converted, and otherwise every column is converted and the names to drop are collected in column order |
| InternetAvailability.ConvertColumns | 20-internet-avaibility/internet-avaibility.py:32-46 | the frame's columns become those the conversion loop leaves (all converted, or those before the failing column), each still one cell per row, and the index never changes |
| InternetAvailability.CoerceNumeric | 20-internet-avaibility/internet-avaibility.py:32-51 | on success the frame holds the converted columns, and only the numeric ones when dropping is asked |
| InternetAvailability.MinuteOf | 20-internet-avaibility/internet-avaibility.py:67 | `floor('min')` is the minute containing the instant |
| InternetAvailability.DayOf | 20-internet-avaibility/internet-avaibility.py:101 | `.dt.date` is the day containing the minute |
| InternetAvailability.MinuteOfDay | 20-internet-avaibility/internet-avaibility.py:101-103 | a minute of a day lies on that day, at its offset |
| InternetAvailability.WindowEnd | 20-internet-avaibility/internet-avaibility.py:70-73 | the end of the window is the week boundary just after `now` |
| InternetAvailability.WindowEndUnique | 20-internet-avaibility/internet-avaibility.py:70-73 | no other week boundary has that property |
| InternetAvailability.WindowStart | 20-internet-avaibility/internet-avaibility.py:74 | the start is 35 days before the end, on a week boundary |
| InternetAvailability.AllTimestamps | 20-internet-avaibility/internet-avaibility.py:88 | 50,400 consecutive minutes, ending one minute before the window end and covering the current minute in the last week |
| InternetAvailability.Floors | 20-internet-avaibility/internet-avaibility.py:61-67 | exactly the minutes of the valid timestamps |
| InternetAvailability.RetainedSpan | 20-internet-avaibility/internet-avaibility.py:78-80 | the retained minutes keep the newest one, lie within 35 days of it, and include every minute that does |
| InternetAvailability.CodeAt | 20-internet-avaibility/internet-avaibility.py:84-98 | the code is -2 for a future minute, -1 outside the recorded range, 1 for a recorded minute and 0 for a missing one |
| InternetAvailability.FutureOnlyInLastWeek | 20-internet-avaibility/internet-avaibility.py:97 | only the last week of the window can show future minutes |
| InternetAvailability.NoRecordsAllMissing | 20-internet-avaibility/internet-avaibility.py:84-98 | with no valid timestamp, every past minute is missing |
| InternetAvailability.Last35Days | 20-internet-avaibility/internet-avaibility.py:108 | the 35 dates of the window |
| InternetAvailability.Last35DaysAreWindowDates | 20-internet-avaibility/internet-avaibility.py:108 | strictly ascending; every window minute's date is among them and every date is a window date |
| InternetAvailability.Weeks | 20-internet-avaibility/internet-avaibility.py:110 | five weeks of seven dates |
| InternetAvailability.WeeksPartition | 20-internet-avaibility/internet-avaibility.py:110 | the weeks, newest first, put back together are the 35 dates |
| InternetAvailability.WeeksDisjoint | 20-internet-avaibility/internet-avaibility.py:110 | no date is in two weeks, and a later week holds later dates |
| InternetAvailability.RowOfInverse | 20-internet-avaibility/internet-avaibility.py:121 | the matrix row of (day, hour) is in range and gives back the day and the hour |
| InternetAvailability.CellMinuteDecreasing | 20-internet-avaibility/internet-avaibility.py:116-121 | a lower row shows an earlier minute |
| InternetAvailability.CellInWindow | 20-internet-avaibility/internet-avaibility.py:113-121 | every matrix cell shows a minute of the window |
| InternetAvailability.FilledStep | 20-internet-avaibility/internet-avaibility.py:118-121 | writing one minute fills exactly its cell |
| InternetAvailability.FillDay | 20-internet-avaibility/internet-avaibility.py:117-121 | the rows of one day are written with their codes; all other cells keep their values |
| InternetAvailability.FillWeek | 20-internet-avaibility/internet-avaibility.py:115-122 | a fresh 168 by 60 matrix whose every cell holds the code of the minute it shows |
| InternetAvailability.FillMatrices | 20-internet-avaibility/internet-avaibility.py:113-123 | one matrix per week, in order, each cell holding its minute's code |
| InternetAvailability.TimestampCells | 20-internet-avaibility/internet-avaibility.py:57-61 | the `timestamp` column when there is one; else the index when it is named `timestamp`; else none, and `df['timestamp']` raises KeyError |
| InternetAvailability.Stamped | 20-internet-avaibility/internet-avaibility.py:57-67 | when the coerced frame has a `timestamp` column, that column ends up holding each instant floored to its minute and every other column stays; without one the caller's columns stay |
| InternetAvailability.PlotImg | 20-internet-avaibility/internet-avaibility.py:54-123 | fails with AttributeError exactly when some column cannot use `.str`, leaving the columns converted up to it; otherwise the caller's frame holds the numeric columns with the `timestamp` column rewritten as `Stamped` says, fails with KeyError exactly when there are no timestamps, and the matrices hold the codes of the window |
| InternetAvailability.DummyFails | 20-internet-avaibility/internet-avaibility.py:195-198 | the dummy frame's numeric column cannot use `.str` |
| InternetAvailability.Handler | 20-internet-avaibility/internet-avaibility.py:192-202 | with no dataset the dummy frame fails at `.str` on column 0; otherwise succeeds exactly when every column can use `.str` and the timestamps are found, then saves at `/tmp/img.png` and answers the image base64-encoded as `image/png` |
| IntervalPing.OffsetInMinute | 20-internet-avaibility/interval-ping.py:33-39 | the offset in the minute is the second and the microsecond |
| IntervalPing.Delay | 20-internet-avaibility/interval-ping.py:33-39 | the wait is positive and at most a minute, and wakes exactly at :30.000000 of this minute (before :30) or of the next |
| IntervalPing.FullMinuteAtHalf | 20-internet-avaibility/interval-ping.py:36-39 | a full minute is waited exactly when it is already :30.000000 |
| IntervalPing.DelayIsLeast | 20-internet-avaibility/interval-ping.py:33-42 | no shorter positive wait lands on :30 |
| NettigoWeather.Kept | 15-nettigo-weather-past-2days/main.py:18 | the positions of rows after the cut-off, in order |
| NettigoWeather.KeptAll | 15-nettigo-weather-past-2days/main.py:18 | every row after the cut-off is kept |
| NettigoWeather.Recent | 15-nettigo-weather-past-2days/main.py:16-18 | the frame cut to rows after the cut-off keeps every column |
| NettigoWeather.PickedMembers | 15-nettigo-weather-past-2days/main.py:48-49 | exactly the readings of rows typed with the sensor |
| NettigoWeather.Pairs | 15-nettigo-weather-past-2days/main.py:42-46 | the 14 column pairs, each absent, broken or complete |
| NettigoWeather.CollectedFails | 15-nettigo-weather-past-2days/main.py:42-55 | gathering fails exactly when a type column has no value column, naming the first such value column |
| NettigoWeather.CollectedHolds | 15-nettigo-weather-past-2days/main.py:42-55 | a successful gathering holds exactly the sensor's readings from the pairs |
| NettigoWeather.CollectSensor | 15-nettigo-weather-past-2days/main.py:41-57 | the inner loop equals the gathering specification |
| NettigoWeather.AsFrameShape | 15-nettigo-weather-past-2days/main.py:50-57 | the sensor's frame has one column named after the sensor, sorted by time, and holds the gathered readings |
| NettigoWeather.Preprocess | 15-nettigo-weather-past-2days/main.py:13-59 | `preprocess` equals the specification `Preprocessed` |
| NettigoWeather.ProcessedAll | 15-nettigo-weather-past-2days/main.py:40-57 | the whole preprocessing fails exactly as the first sensor's gathering fails; on success each sensor's frame is its gathering |
| NettigoWeather.PairsKept | 15-nettigo-weather-past-2days/main.py:18-46 | the cut-off does not change which pairs are present |
| NettigoWeather.PreprocessFails | 15-nettigo-weather-past-2days/main.py:46-49 | `preprocess` fails exactly when some type column lacks its value column |
| NettigoWeather.RecentSources | 15-nettigo-weather-past-2days/main.py:18-49 | a reading comes from the cut frame exactly when it comes from a row of the original after the cut-off |
| NettigoWeather.PreprocessHolds | 15-nettigo-weather-past-2days/main.py:13-59 | on success each sensor's frame holds a reading exactly when some row after the cut-off, typed with that sensor, gives it |
| NettigoWeather.ShadedWithinData | 15-nettigo-weather-past-2days/main.py:152-159 | every shaded span is non-empty and lies between the first and last reading |
| NettigoWeather.ShadedNights | 15-nettigo-weather-past-2days/main.py:147-159 | every shaded span is a night, clamped to the data, of a day in the date range |
| NettigoWeather.ShadeNights | 15-nettigo-weather-past-2days/main.py:143-159 | the loop over the date range shades the nights given by the specification `Shaded` |
| NettigoWeather.PlottedFails | 15-nettigo-weather-past-2days/main.py:62-63 | plotting succeeds exactly when every sensor frame has a row, and otherwise fails at the first empty one |
| NettigoWeather.Earliest | 15-nettigo-weather-past-2days/main.py:143 | `index.min()` is a time of the index and no later than any of them |
| NettigoWeather.Latest | 15-nettigo-weather-past-2days/main.py:144 | `index.max()` is a time of the index and no earlier than any of them |
| NettigoWeather.BoundsOfSorted | 15-nettigo-weather-past-2days/main.py:143-155 | on a frame sorted by time the data bounds are its first and last reading times |
| NettigoWeather.PlottedSpans | 15-nettigo-weather-past-2days/main.py:143-162 | every shaded span lies within the temperature readings' bounds and is the clamped night of a day in the range |
| NettigoWeather.PlotImg | 15-nettigo-weather-past-2days/main.py:69-167 | plotting equals the specification `Plotted` |
| NettigoWeather.Handler | 15-nettigo-weather-past-2days/main.py:184-191 | fails with no dataset, or as `preprocess` or plotting fails; otherwise saves at `/tmp/img.jpg` and answers it as `image/jpg` |
| SynologyGraph.ColorLine | 25-synology-temperature/synology-graph.py:28-42 | n points give n - 1 joined segments, segment i from point i to point i + 1, coloured by the i-th value, with the norm fixed to 15..50 |
| SynologyGraph.DatetimeCells | 25-synology-temperature/synology-graph.py:52-53 | definition of `pd.to_datetime` on the index: each value becomes its time, or NaT; the week's rows it selects are stated by `SinceMembers` |
| SynologyGraph.SinceMembers | 25-synology-temperature/synology-graph.py:56-58 | a row is kept exactly when it is a row of the frame no older than a week |
| SynologyGraph.KeyOf | 25-synology-temperature/synology-graph.py:61 | definition of the groupby key: a row has one exactly when its server and disk are text; the panels it yields are stated by `DrawnKeys` |
| SynologyGraph.KeyLessIsStrictTotalOrder | 25-synology-temperature/synology-graph.py:61 | the order of (server, disk) keys is a strict total order |
| SynologyGraph.Keys | 25-synology-temperature/synology-graph.py:61 | the group keys in ascending order, each exactly once, exactly the keys of the rows |
| SynologyGraph.GroupKeys | 25-synology-temperature/synology-graph.py:61 | the keys gathered row by row equal `Keys` |
| SynologyGraph.GroupMembers | 25-synology-temperature/synology-graph.py:61-85 | a group holds each row with its key as often as the frame does, and nothing else |
| SynologyGraph.SortedGroup | 25-synology-temperature/synology-graph.py:86 | a group is sorted by time and is a permutation of the group's rows |
| SynologyGraph.YRangeCovers | 25-synology-temperature/synology-graph.py:76-78 | no range exactly when no temperature is a number; otherwise it contains 20, 45 and every temperature, and each limit is a reference value or a temperature |
| SynologyGraph.Coerced | 25-synology-temperature/synology-graph.py:47-53 | the frame gains `datetime` and keeps `temperature` |
| SynologyGraph.PanelsFor | 25-synology-temperature/synology-graph.py:85-100 | one panel per key, in the keys' order |
| SynologyGraph.DrawnFails | 25-synology-temperature/synology-graph.py:61-78 | drawing succeeds exactly when some row has a group and some temperature is a number; with no group it fails as `subplots(nrows=0)` does |
| SynologyGraph.DrawnKeys | 25-synology-temperature/synology-graph.py:61-97 | one panel per (server, disk) pair, ascending, exactly the pairs of the week |
| SynologyGraph.DrawnPanels | 25-synology-temperature/synology-graph.py:85-100 | each panel's line runs through exactly its pair's rows, in time order, and its limits cover every temperature |
| SynologyGraph.Draw | 25-synology-temperature/synology-graph.py:61-100 | the drawing loop equals the specification `Drawn` |
| SynologyGraph.DrawPanels | 25-synology-temperature/synology-graph.py:85-100 | the drawing loop gives one panel per group, in the groups' order, each equal to its specification panel |
| SynologyGraph.Panels | 25-synology-temperature/synology-graph.py:56-100 | equals the specification `Plotted`: a missing `server_name` or `name` column fails with KeyError, otherwise the week's rows are drawn |
| SynologyGraph.PlotImg | 25-synology-temperature/synology-graph.py:45-134 | coerces the caller's frame in place and equals the specification `PlotOf`; a missing `temperature` column fails and leaves the frame unchanged |
| SynologyGraph.Handler | 25-synology-temperature/synology-graph.py:151-161 | the dummy frame fails with KeyError `temperature`; otherwise fails exactly as plotting does, or saves at `/tmp/imgpng` and answers the image |
| SynologyTemperature.ClassifyExclusive | 25-synology-temperature/synology-temperature.py:62-81 | an OID matches at most one disk-table column prefix, tested in the order name, model, temperature |
| SynologyTemperature.NoDotBoundary | 25-synology-temperature/synology-temperature.py:63 | `startswith` without a dot boundary files OID `...2.1.1.20.1` as a name |
| SynologyTemperature.DiskIndexIsLastComponent | 25-synology-temperature/synology-temperature.py:64 | the disk index is the text after the last dot |
| SynologyTemperature.FirstSeen | 25-synology-temperature/synology-temperature.py:65-66 | the disks in order of first appearance, each once, exactly those filed |
| SynologyTemperature.InfoOnlySeen | 25-synology-temperature/synology-temperature.py:65-81 | a disk nothing is filed under has no data |
| SynologyTemperature.LaterOverwrites | 25-synology-temperature/synology-temperature.py:67-81 | the value kept for a disk and field is the last one filed there |
| SynologyTemperature.NeverFiledAbsent | 25-synology-temperature/synology-temperature.py:65-81 | a field never filed for a disk is absent |
| SynologyTemperature.Get | 25-synology-temperature/synology-temperature.py:85-87 | definition of `info.get(key, 'Unknown')`: the stored value, or `Unknown` |
| SynologyTemperature.Entry | 25-synology-temperature/synology-temperature.py:84-94 | definition of one `outinfo` record: server, IP, disk, and each field's stored value or `Unknown`; that these are the last values filed is stated by `EntryReportsLast` |
| SynologyTemperature.EntriesPerDisk | 25-synology-temperature/synology-temperature.py:84-94 | exactly one record per disk met in the walk |
| SynologyTemperature.EntryReportsLast | 25-synology-temperature/synology-temperature.py:67-94 | a record reports each field's last value filed, or `Unknown` when none was filed |
| SynologyTemperature.OutInfo.Append | 25-synology-temperature/synology-temperature.py:94 | appends the record at the end of `outinfo` |
| SynologyTemperature.FileValue | 25-synology-temperature/synology-temperature.py:64-67 | sets the disk's field to the value, creating the disk's empty entry first and appending it to the order when it is new; no other disk changes |
| SynologyTemperature.CollectedStep | 25-synology-temperature/synology-temperature.py:58-81 | filing one more varbind keeps `order` and `disk_data` equal to the first-seen disks and their last values |
| SynologyTemperature.CollectDisks | 25-synology-temperature/synology-temperature.py:57-81 | the `disk_data` loop gives the disks in first-seen order, each with its last values |
| SynologyTemperature.AppendEntries | 25-synology-temperature/synology-temperature.py:84-94 | appends one record per disk, in order |
| SynologyTemperature.Run | 25-synology-temperature/synology-temperature.py:35-94 | on an SNMP error nothing is appended; otherwise the walk's records are appended |
| SynologyTemperature.PollServers | 25-synology-temperature/synology-temperature.py:124-128 | a fresh `outinfo` holding every server's records, in server order |
| SynologyTemperature.NextFiveMinuteMark | 25-synology-temperature/synology-temperature.py:113 | a five-minute mark strictly after the start of the current minute and at most five minutes after it: the start of five-minute block number `minute // 5 + 1` |
| SynologyTemperature.WaitTime | 25-synology-temperature/synology-temperature.py:108-121 | the wait is positive, at most five minutes, lands on a five-minute mark, and is exactly five minutes when `now` is on one |
| SynologyTemperature.WaitIsLeast | 25-synology-temperature/synology-temperature.py:113-116 | no five-minute mark after the current minute comes before the wake-up |

## Left out

- Rendering is left out: matplotlib figures, axes, colours, ticks, labels and
  colour maps. The saved image is a parameter. What is kept is what the
  script hands to the drawing (matrices, panels, segments, night spans) and
  the failures the drawing raises that the model names (for `plt.plot` in
  `00_hello_world.py`, a column that kept its text).
- Time zones are left out, and instants are integer microseconds.
  Daylight-saving shifts are therefore not modelled: a day is always 24
  hours. The `tz_localize('UTC')` and `tz_convert` calls of
  `internet-avaibility.py` keep the instant. The `replace(tzinfo=None)` calls
  of Nettigo's `main.py` (lines 149-156) do not; see the line on
  `NettigoWeather.ShadedNights` below.
- Nettigo's cut-off compares a UTC index with a Prague time. pandas does
  this by instant, as modelled.
- The clock is a parameter (`now`). So are the Prague sunset and sunrise
  (the astral library) and the SNMP replies (the pysnmp transport).
- The JSON codec is left out. `json.loads` and `json.dumps` are parameters,
  and `LocalServer.JsonLines` states the one property the log needs of them.
- Numbers are `real`; number parsing and date parsing are parameters.
  Floating-point rounding is not modelled, and neither is the `.1f`/`.0f`
  formatting of the end-of-line labels.
- The endless loops and the sleeps are left out: the `while True` of
  `synology-temperature.py` and `interval-ping.py`, the `time.sleep` calls,
  and the HTTP server's `serve_forever`. One round and the computed wait are
  modelled.
- `send_log` (HTTP POST to 2minlog) and the ping request are network I/O
  with no result used later, so they are left out.
- The subprocess run by `generate_image` is a parameter: the image it
  writes, if any.
- `print` output is left out.
- The confidential credentials and URLs are left out.
- `internet-avaibility.py` defines `returnimg` and `handler` twice (lines
  177-202 and 205-230) with identical bodies. The second definition wins,
  and both are modelled by the same members.
- The local runner of `synology-graph.py` (lines 164-205) and of
  `internet-avaibility.py` are not part of this model. `HelloWorld` models
  the boilerplate's runner (lines 84-99), and the others follow the same
  pattern.
- The merge of `internet-avaibility.py` (line 93) can repeat a minute when
  two rows fall in it. The model keeps one code per minute, which is what
  the matrix shows, since later writes of the same cell write the same code.
- `NettigoWeather.PlotImg`: `astype(float)` failing on a non-numeric reading
  is not modelled. Only the IndexError of an empty frame is.
- `NettigoWeather.ShadedNights`, `NettigoWeather.ShadeNights` and
  `NettigoWeather.PlottedSpans`: `replace(tzinfo=None)` at lines 149-156 of
  `main.py` turns sunset and sunrise into naive Prague wall-clock times, and
  the data bounds into naive UTC wall-clock times. The script compares these
  numbers as they are, one to two hours apart, and so does the model:
  `sunset` and `sunrise` stand for the Prague wall-clock values, and the
  data bounds for the UTC wall-clock values. The model does not promise that
  a shaded span is the night in either zone.
- `InternetAvailability.PlotImg`: line 62 raises TypeError when the
  timestamps are already zone-aware (`tz_localize` on aware values). The
  model takes them as naive UTC values, read by the `toTime` parameter.
- `HelloWorld.Handler`: only text left in a column is taken to stop
  `plt.plot`. A column of times cannot remain after coercion, since
  `to_numeric` turns times into numbers.
- `NettigoWeather.AsFrameShape`: `sort_index` is not stable in pandas. The
  model sorts stably, and the lemmas state order and content only.
- `SynologyGraph.SortedGroup`: the same holds for `sort_values`. Only
  sortedness and permutation are stated.
- `SynologyGraph.KeyOf`: `groupby` drops rows whose key has a NaN. Keys of
  other non-text types (numbers) are treated as absent too.
- `SynologyTemperature.Entry`: `str()` of an SNMP value is taken to be the
  value's text.
- SynologyGraph.DatetimeCells: `pd.to_datetime` at line 52 of
  `synology-graph.py` raises on an index value it cannot read. The model
  gives NaT there instead, and such a row is then never in the week.
  `HelloWorld.ToTimes` does model the raising form.
- `LocalServer.CsvOfLog`: assumes that the lines already in the raw log
  when the server starts are lines as `handle_data` writes them (non-empty,
  one line, no white space at either end). A hand-edited log with blank or
  padded lines is not covered by the lemma; `ToCsv` still models it.
- `InternetAvailability.ConvertColumns`: the source writes each converted
  column into the frame as it goes. The model converts a copy of the column
  list and writes it back once, after the loop or at the failing column. No
  one reads the frame in between, so the final frame is the same.

## Findings

| source | as written | input that shows it | evidently intended | confidence | as-written member | corrected member |
|---|---|---|---|---|---|---|
| 00-default_code/00_hello_world.py:93 | the guard `csv == [[]]` never holds, because `''.strip().split(',')` is `['']` and an empty file gives `[]`; an empty file then fails at `csv[0]` | an empty dataset file | skip empty dataset files | not executed | HelloWorld.EmptyFileStopsLoad | HelloWorld.LoadAllSkipsEmpty |
