# PyGNSS core in Dafny

PyGNSS is a small library that works with precise GNSS orbits. It has two
near-identical modules, `PyGNSS.py` and `PySatellite.py`. This project models
their integer and text logic and proves what that logic promises:

- **GPS/UTC time.** Conversion over the constant leap-second table
  (`time_utc2gps`, `time_gps2utc`) and the split of a GPS instant into week,
  day and seconds (`time_gps2wdt`).
- **Orbit-file slots.** The slot arithmetic of `download_sp3`: the 6-hour
  bucket, the slot 6 hours earlier, the `igu<W><D>_<HH>.sp3.Z` names and the
  server paths.
- **SP3 reading.** `read_sp3`, which turns the orbit-record part of an SP3
  file into one record per data line. Each record carries the UTC time of
  the most recent epoch line.
- **Frame columns and grouping.** The column set that `convert_ecef2lla`
  produces, and the tracks `groupby(level=[0])` forms by vehicle.
- **KML writing.** `write_kml`, with its column checks, one folder of point
  placemarks per vehicle, and one orbit polygon per vehicle. It exists only
  in `PyGNSS.py`.

Modules, in dependency order:

| file | module | what it holds |
|---|---|---|
| wrappers.dfy | Wrappers | `Option` and `Result` |
| decimal.dfy | Decimal | `%d` and `%0Nd` text of integers; `int()` of a token; digit strings and zero padding |
| py_strings.dfy | PyStrings | `str.isspace`, `strip()` emptiness, `split()` and how it treats runs of white space, `startswith` |
| calendar.dfy | Calendar | proleptic Gregorian dates; `datetime` as micro-seconds since 0001-01-01 |
| gps_time.dfy | GpsTime | the leap-second table, `time_utc2gps`, `time_gps2utc`, `time_gps2wdt` |
| orbit_download.dfy | OrbitDownload | slot selection, file names and server paths of `download_sp3` |
| sp3.dfy | Sp3 | classification of SP3 lines, epoch parsing, the `read_sp3` loop |
| frames.dfy | Frames | the columns of `convert_ecef2lla`, the vehicle order, `groupby` |
| kml.dfy | Kml | the writes of `write_kml` and where names, times and positions land |

Time is exact throughout:

- **Instants.** A `datetime` is an `Instant`: micro-seconds since
  0001-01-01T00:00:00, within the range of years 1 to 9999.
- **Leap table.** Each table date is stored as the instant of its midnight;
  `GpsTime.LeapTableDates` proves each one from the calendar.
- **Overflow.** A `timedelta` sum that leaves the `datetime` range is an
  error (`OutOfRange`), as Python's OverflowError is.

`read_sp3` is modelled as follows:

- **Loop and fold.** `Sp3.ReadSp3` is the loop over the lines after the
  22-line header. It is proved equal to `Sp3.ReadResult`: a left fold of
  `Sp3.Step` over the classified lines, which the lemmas reason about.
- **CSV round trip.** The text the loop writes to the `StringIO` buffer goes
  back through `read_csv`. The model folds this round trip into the record
  itself: the vehicle without its first character, the UTC instant, and at
  most eight value tokens.

`write_kml` is modelled as follows:

- **Output.** `Kml.WriteKml` returns the sequence of `Kml.Write` calls the
  function makes on the file.
- **Exact strings.** `Kml.Text` maps each write to the exact string it
  writes, and `Kml.FileText` concatenates them.
- **Floats.** `str()` of a float is the parameter `render`.

Two behaviours of the code are easy to miss:

- **Before 1980.** `time_utc2gps` and `time_gps2utc` slice the table with
  `[:dt]` and take `[-1]`, which raises on an empty slice. So
  `GpsTime.Offset`, `Utc2Gps` and `Gps2Utc` give `Err(NoLeapEntry)` before
  1980-01-01.
- **`EOF` lines.** `EOF` lines are skipped by `continue`.

## Model

The table cites `PyGNSS.py`. `PySatellite.py` holds the same code for every
modelled part except `write_kml`. From `download_sp3` on, its lines sit two
earlier: the slot arithmetic at 145-158, the fallback path at 178, and
`read_sp3` at 204-261.

| member | source | states |
|---|---|---|
| GpsTime.LeapTableShape | PyGNSS.py:22-43 | the table has 19 entries, strictly ascending by date; entry i has offset i, the last 18 |
| GpsTime.LeapTableDates | PyGNSS.py:22-42 | every entry's instant is midnight of the listed calendar date, which is a valid date |
| GpsTime.LastAtOrBefore | PyGNSS.py:71 | `[:dt]` then `[-1]`: the last entry dated at or before t, with every later entry after t; none exactly when every entry is after t |
| GpsTime.LastAtOrBeforeCounts | PyGNSS.py:71 | on a sorted table the lookup lands on entry (number of dates at or before t) - 1, and fails exactly when that number is 0 |
| GpsTime.Offset | PyGNSS.py:88 | the offset is defined exactly from 1980-01-01 on, lies in 0..18, and counts the table dates passed; before that the lookup fails |
| GpsTime.Utc2Gps | PyGNSS.py:71-73 | `dt` plus the offset of the latest entry at or before `dt`; fails before 1980 and past year 9999, and only there |
| GpsTime.Gps2Utc | PyGNSS.py:88-90 | subtracts the offset looked up with the GPS instant itself; fails exactly before 1980 |
| GpsTime.Utc2GpsIncreasing | PyGNSS.py:71-73 | UTC to GPS is strictly increasing |
| GpsTime.RoundTrip | PyGNSS.py:88-90 | `gps2utc(utc2gps(t)) == t` exactly when no table date lies in (t, utc2gps(t)]; otherwise the result falls short of t |
| GpsTime.Gps2Wdt | PyGNSS.py:111-121 | with total = GPS instant - 1980-01-06, W one week and D one day: 0 <= secWeek < W, 0 <= day <= 6, 0 <= secsDay < D, week*W + secWeek == total, day*D + secsDay == secWeek; errors exactly as `time_utc2gps` |
| Calendar.FromInstantOfInstant | PyGNSS.py:245-246 | a valid `datetime` maps to an instant and back to itself |
| Calendar.DayNumberOrder | PyGNSS.py:71 | the day count orders dates as the calendar does, and is one-to-one |
| Calendar.DateOfDay | PyGNSS.py:72 | the date n days after 0001-01-01 is valid and has day count n |
| OrbitDownload.SlotHour | PyGNSS.py:148 | the bucket is 0, 6, 12 or 18 and its 6 hours contain the second of day |
| OrbitDownload.PreviousSlot | PyGNSS.py:152-159 | the slot index drops by exactly 6 hours; hour stays in 0..23, day in 0..6, the week drops by at most one; for a valid slot the result is the unique encoding of that hour |
| OrbitDownload.SlotOfIndexOfSlot | PyGNSS.py:152-159 | each valid (week, day, hour) is the unique encoding of its hour index |
| OrbitDownload.ParseOrbitFileNameOfName | PyGNSS.py:150 | `igu%d%d_%02d.sp3.Z` for a non-negative week, a one-digit day and hour < 100 reads back to its week, day and hour |
| OrbitDownload.OrbitCandidates | PyGNSS.py:147-163 | from the instant it derives the bucket, the file name and path, and the previous file with both its path as written (under the current week) and its corrected path (under that file's own week, see Findings); it fails exactly as `time_gps2wdt` does |
| OrbitDownload.SlotFiles | PyGNSS.py:150-160 | names and paths of the primary and the previous file of a valid slot; the previous file's path both as written, under the current week, and corrected, under its own week |
| OrbitDownload.FallbackInOwnWeek | PyGNSS.py:178-182 | the corrected fallback path lies in the directory of the week its own file name carries |
| OrbitDownload.FallbackAsWrittenMissesWeek | PyGNSS.py:180 | in the first slot of week w the fallback as written asks directory w for the file of week w - 1 |
| PyStrings.Tokens | PyGNSS.py:236 | `split()`: non-empty tokens without white space; none exactly for a blank line |
| PyStrings.TokensOfJoinWords | PyGNSS.py:236 | `split()` undoes joining words with single spaces |
| PyStrings.TokensOfBlankPrefix | PyGNSS.py:236 | white space of any kind and length before a line does not change its `split()` |
| PyStrings.TokensOfSpaced | PyGNSS.py:236 | `split()` recovers the words of a line whose words are separated by any non-empty white space, with any white space at either end |
| Decimal.IntText02 | PyGNSS.py:150 | `%02d`: two digits of value n for 0 <= n < 100; the plain sign and digits for negative n |
| Decimal.ParseInt | PyGNSS.py:237-241 | `int()` of an optional `+` or `-` followed by ASCII digits; such a token, and no other, reads as a number |
| Decimal.ParseIntOfText | PyGNSS.py:237-241 | `int()` reads `%d` text back to its number |
| Sp3.Classify | PyGNSS.py:233-250 | a line is blank, an epoch (`*  `), an `EOF` marker or data, tested in the source's order; an epoch's fields are its tokens after the first, and a data line's first token and the rest are its tokens |
| Sp3.IntField | PyGNSS.py:237-241 | a missing field or a token `int` rejects is an error, otherwise the field's value |
| Sp3.ParseSeconds | PyGNSS.py:242-244 | whole seconds and micro-seconds both truncated toward zero, with the sign of the field; micro-seconds strictly between -10^6 and 10^6 |
| Sp3.ParseSecondsOfText | PyGNSS.py:242-244 | seconds written with at least six decimals read back as their whole seconds and micro-seconds |
| Sp3.ParseSecondsOfDecimal | PyGNSS.py:242-244 | any token of an optional sign, digits, and optionally a point and more digits (at least one digit in all) reads as its whole seconds, negated under `-`, and as micro-seconds that are the fraction truncated toward zero, with the sign |
| Sp3.SixDigitsTruncates | PyGNSS.py:243-244 | the first six fraction digits, padded with zeros, are the fraction times 10^6 truncated toward zero |
| Sp3.EpochDateTime | PyGNSS.py:236-246 | succeeds exactly when there are at least six fields, the first five read by `int()`, the sixth by `float()`, and together they form a valid `datetime`; a result's fields are those the tokens parse to |
| Sp3.EpochDateTimeOfFields | PyGNSS.py:236-246 | an epoch line written from a valid date-time reads back as that date-time, whatever follows |
| Sp3.EpochInstant | PyGNSS.py:236-247 | the epoch's UTC instant is `time_gps2utc` of its date-time; parse errors pass through; a time error means the epoch lies before 1980 |
| Sp3.ReadSp3 | PyGNSS.py:222-254 | the loop gives exactly the outcome of the fold over the classified lines after the header: CannotOpen, the first error, or the records |
| Sp3.RunSkipsLine | PyGNSS.py:233-250 | a blank or `EOF` line inserted anywhere leaves the outcome unchanged |
| Sp3.ReadSkipsLine | PyGNSS.py:225-250 | the header's 22 lines never matter, and neither do blank or `EOF` lines after it |
| Sp3.RunErrorSticks | PyGNSS.py:251-253 | once a prefix fails, the whole run fails with the same error |
| Sp3.DataBeforeEpochFails | PyGNSS.py:251-253 | a data line with no epoch line before it makes the run fail with NoEpoch |
| Sp3.ReadDataBeforeEpoch | PyGNSS.py:227-253 | `read_sp3` raises, returning no frame, on a data line after the header that no epoch line precedes |
| Sp3.RunTracks | PyGNSS.py:231-254 | a successful run emits one record per data line, in order; each is stamped with the UTC instant of the latest epoch line before it |
| Sp3.ReadFrame | PyGNSS.py:227-261 | a frame has exactly one record per data line; record k carries the last epoch's UTC time, the vehicle minus its first character, and the next at most eight tokens |
| Frames.ConvertColumns | PyGNSS.py:306-309 | succeeds exactly when coor_x, coor_y, coor_z are present, lat, long, alt absent and the frame has rows (on an empty frame `apply` gives back the cartesian columns and the join fails on the overlap); adds lat, long, alt on the right; with `remove` drops exactly the cartesian columns |
| Frames.Insert | PyGNSS.py:365 | inserting a key keeps the keys ascending, without repeats, and with the same members plus that key |
| Frames.LessTransitive | PyGNSS.py:365 | Python's string order is transitive |
| Frames.LessTotal | PyGNSS.py:365 | Python's string order is total on distinct strings |
| Frames.GroupKeys | PyGNSS.py:365 | the group keys are the vehicles of the rows, each once, ascending |
| Frames.GroupBy | PyGNSS.py:365 | one group per key, holding that vehicle's rows in frame order |
| Frames.GroupByNames | PyGNSS.py:365 | groups are ascending by name; every row's vehicle names a group; each group is non-empty and holds only its vehicle |
| Frames.GroupByPartitions | PyGNSS.py:365 | the group sizes add up to the number of rows |
| Kml.WriteKml | PyGNSS.py:354-465 | missing lat, long or alt (checked in that order) is an error before the file is opened; a file that cannot be created is an error; otherwise the writes are the document of the groups |
| Kml.WriteDocument | PyGNSS.py:413-459 | head, name, style, the folder pass, the ring pass, foot |
| Kml.WriteFolders | PyGNSS.py:417-436 | appends one folder block per group, in group order |
| Kml.WriteFolder | PyGNSS.py:418-436 | the folder opening, the group name, one point placemark per row in order, the close |
| Kml.WritePointPlacemark | PyGNSS.py:421-435 | the twelve writes of one point placemark |
| Kml.WriteRings | PyGNSS.py:439-456 | appends one ring placemark per group, in group order |
| Kml.WriteRing | PyGNSS.py:441-456 | the ring placemark's opening writes, one coordinate line per row in order, the closing writes |
| Kml.WhenTextDecodes | PyGNSS.py:426 | for years 1000..9999 the `%Y-%m-%dT%H:%M:%SZ` stamp reads back as the date and the time to the second |
| Kml.DocumentNames | PyGNSS.py:417-419 | the folder names of a document are the group names, in order |
| Kml.DocumentStamps | PyGNSS.py:420-427 | the `<when>` times are the times of all rows, group after group |
| Kml.DocumentPoints | PyGNSS.py:420-432 | the point coordinates are the positions of all rows, group after group |
| Kml.DocumentRingPoints | PyGNSS.py:439-451 | the ring coordinate lines are the same positions, in the same order |
| Kml.FrameDocument | PyGNSS.py:417-456 | for a frame: folder names are the sorted distinct vehicles; one stamp and one point per row; the rings repeat the points exactly |

## Left out

- FTP login, size queries and retrieval, the 7z call and file removal in `download_sp3`: network and process I/O, not modelled. The data-folder fallback is left out for the same reason.
- The file system: `read_sp3` is given the file's lines, or None when `open` fails. `write_kml` is given whether `open(fn, 'w')` succeeds and returns the writes it makes.
- `datetime.now()` as the default instant: nondeterministic. Callers pass the instant.
- `reproject_ecef2lla` and the coordinate values of `convert_ecef2lla`: a foreign `pyproj` call on floats. Only the column set is modelled.
- `time_utm2gmst` and the `usegmsd` correction: floating-point polynomial and trigonometry.
- pandas internals: `read_csv` type inference, `to_datetime` and `set_index`. A record holds the time, the vehicle and the value tokens directly. The step from records to a frame with lat, long and alt is not modelled.
- `print` messages: output only, with no effect on results.
- Sp3.ParseSeconds: reads the seconds field as an exact decimal, truncated to micro-seconds. It does not model binary floating-point rounding in `float(x)` and `(x - int(x)) * 1e6`, which can give one micro-second less. It accepts only an optional sign, digits and an optional point with digits; `float()` also accepts exponents (`1e1`), `inf`, `nan`, underscores between digits and non-ASCII digits, which the model rejects.
- Decimal.ParseInt: accepts only an optional sign and ASCII digits. `int()` also accepts underscores between digits (`1_0`), surrounding white space and non-ASCII decimal digits, which the model rejects; tokens from `split()` carry no white space.
- GpsTime.Gps2Wdt: splits exact micro-seconds where the source uses float seconds from `total_seconds()`. Its seconds of week and day are in micro-seconds.
- Kml.WhenTextDecodes: stated for years 1000..9999 only. `strftime('%Y')` pads shorter years to four digits on some platforms and not on others.
- Kml.WriteKml: returns the writes as `Kml.Write` values rather than strings; `Kml.Text` and `Kml.FileText` give the exact strings. `str()` of a float is the parameter `render` and is not modelled.
- Kml.FrameDocument: relates names, stamps and coordinates to the rows. It does not restate the fixed markup between them, which `Kml.Document` spells out.

## Findings

| source | as written | input that shows it | evidently intended | confidence | as-written member | corrected member |
|---|---|---|---|---|---|---|
| PyGNSS.py:180 | the fallback path uses the current week `gpsW` as the directory of the previous file | any instant in the first 6 hours of a GPS week (day 0, bucket 0): the previous file `igu<w-1>6_18.sp3.Z` is requested from directory `<w>` | look in the directory of the previous file's own week `gpsW2` | not executed | OrbitDownload.FallbackAsWrittenMissesWeek | OrbitDownload.FallbackInOwnWeek |
| PySatellite.py:178 | the same use of `gpsW` for the fallback path | as above | as above | not executed | OrbitDownload.FallbackAsWrittenMissesWeek | OrbitDownload.FallbackInOwnWeek |
