# pysimbie orbit-thickness readers in Dafny

This project models `pysimbie/dataset.py`, the module that reads sea-ice
thickness along satellite orbits into orbit-thickness data sets. Every data set
has seven parameters: timestamp, longitude, latitude, ice density, snow density,
snow depth and sea-ice thickness.

The model covers these parts of the module:

- **AWI binary reader (`AWIOrbitThickness`).**
  - A 106-byte header: two pairs of 32-bit float limits, then 45 little-endian
    `int16` content flags. Every non-zero flag switches on one data group.
  - Then `nrecs` records. Each record holds one 8-byte little-endian double per
    active data group. `nrecs` is the Python 2 integer (floor) division of the
    bytes after the header by the record size; the module is Python 2 code (it
    uses `long`).
  - Each active slot is named by the key at that position in the
    configuration's `output` list.
  - Record times are Julian dates. `caldate_1900` converts them to calendar
    dates, and `_get_datetime` shifts the result by twelve hours.
- **Calendar arithmetic.** `leapyear`, and the integer part of `caldate_1900`:
  re-basing 1900-based dates, the century/year/month steps of the
  Julian-to-Gregorian conversion, the year-day tables, and hour/minute/second.
- **File names.** `file_basename` and `parse_filename`, which reads the orbit
  number as the second `_`-separated token of the base name.
- **NASA-JPL text reader (`NASAJPLOrbitThickness.parse`).**
  - Three header lines, then one record per line.
  - One array per parameter, sized to the number of record lines.
  - The ice density is filled with the fixed default of 920.0.

Modules:

| file | module | content |
|---|---|---|
| `outcomes.dfy` | `Outcomes` | the exceptions the code raises as `Error`, `Result`/`Status`, and `MapAll`, which models a list comprehension that stops at the first failing element |
| `dataset.dfy` | `Dataset` | the `"n/a"` placeholder of the base class |
| `bytes.dfy` | `Bytes` | little-endian unsigned integers, `int16` and 8-byte words (`struct.unpack` with `<h` and `<d` formats), with encoders proved to be inverses |
| `calendar.dfy` | `Calendar` | `leapyear`; `caldate_1900` as a bijection between day numbers and valid dates; the clock of a second of the day |
| `timestamps.dfy` | `Timestamps` | `_get_datetime`: Python `datetime` year limits and the twelve-hour shift |
| `header.dfy` | `BinaryHeader` | `_parse_header`, its encoder, and `_get_datagroup_indices` |
| `layout.dfy` | `RecordLayout` | the record count and offsets, and the binding of data-group names to columns |
| `filenames.dfy` | `Filenames` | `str.split`, `os.path.split`, `file_basename`, `int()` of a digit string, `parse_filename` |
| `awi.dfy` | `AwiOrbit` | the `AWIOrbitThickness` class: header, count, bindings, record table, attributes, parameters, construction |
| `nasa.dfy` | `NasaJplOrbit` | the `NASAJPLOrbitThickness` class: `init_parameter_groups`, `parse`, construction |

The readers are classes whose methods update fields, as in the source. Mutable
state is held as follows:

- The AWI record table (`self.data`) is an `array2`.
- The NASA-JPL parameters are arrays.
- The AWI parameters are sequences. In the source, `get_datagroup` returns
  `np.squeeze` of a column slice, which is a view sharing memory with
  `self.data`, not a copy. Nothing writes `self.data` after `_parse_content`
  has filled it, so a parameter always holds the values of its column, and a
  sequence of those values behaves the same.
- The AWI construction takes the per-record time conversion as a parameter
  `convert`. `AwiOrbit.Open` passes `AwiOrbit.RecordTimestamp(decodeTime)`,
  which is `_get_datetime` of the Julian instant `decodeTime` reads from a
  record value.
- `AwiOrbit.ContentOutcome` is the parameters (or the error) that the
  construction produces, defined from the file bytes and configured keys
  alone.
- Reading a file is modelled as access to its content: bytes for the AWI reader,
  lines for the NASA-JPL reader.

## Model

| member | source | states |
|---|---|---|
| Outcomes.MapAll | pysimbie/dataset.py:200 | a list comprehension over a sequence either succeeds on every element, giving one result per element in order, or fails with the error of the first element that fails, all earlier elements having succeeded |
| Bytes.LeUintOfLeBytes | pysimbie/dataset.py:216-218 | encoding a number below 256^n as n little-endian bytes and decoding it gives the number back |
| Bytes.LeBytesOfLeUint | pysimbie/dataset.py:216-218 | decoding little-endian bytes and re-encoding them at the same width gives the same bytes |
| Bytes.LeUintInjective | pysimbie/dataset.py:216-218 | two byte strings of equal length that decode to the same number are equal |
| Bytes.Int16LeIsTwosComplement | pysimbie/dataset.py:218 | a `<h` value is the two's-complement reading of its two bytes: it agrees with their unsigned value modulo 65536 |
| Bytes.Int16LeOfInt16Bytes | pysimbie/dataset.py:218 | encoding an int16 and decoding it with `<h` gives it back |
| Bytes.Int16BytesOfInt16Le | pysimbie/dataset.py:218 | decoding two bytes with `<h` and encoding the value gives the same bytes |
| Bytes.DecodeInt16s | pysimbie/dataset.py:218 | `struct.unpack('<Nh')`: value i comes from bytes 2i and 2i+1, and there is one value per two bytes |
| Bytes.DecodeInt16sOfEncodeInt16s | pysimbie/dataset.py:218 | decoding the encoding of any sequence of int16 values gives the sequence back |
| Bytes.DecodeWords | pysimbie/dataset.py:255-256 | `struct.unpack('<%gd')`: word i comes from bytes 8i..8i+8, and there is one word per 8 bytes |
| Bytes.DecodeWordsOfEncodeWords | pysimbie/dataset.py:255-256 | decoding the encoding of any sequence of 8-byte words gives the sequence back |
| Calendar.LeapYear | pysimbie/dataset.py:314-328 | the result is 0 or 1, and it is 1 exactly when the year is divisible by 4 and either not by 100 or by 400 |
| Calendar.TablesStepByMonthLengths | pysimbie/dataset.py:362-363 | the `ivd`/`ivdl` year-day tables start at 1, end at 366/367, and successive entries differ by that month's length in a common or leap year |
| Calendar.Rebase | pysimbie/dataset.py:339-340 | a day number below 2440000 is 1900-based and is shifted by 2415020 + 1; any other day number is kept |
| Calendar.CycleSplit | pysimbie/dataset.py:344-348 | splits a March-based day count into 400-year quarter-cycles and a day within a century (0..36524) that reconstruct it; day 36524 occurs only in the last century of a 400-year cycle |
| Calendar.YearSplit | pysimbie/dataset.py:349-351 | splits a day of a century into a year (0..99) and a day of a March-based year (1..366) that reconstruct it; day 366 occurs only in years 3 mod 4 |
| Calendar.MonthSplit | pysimbie/dataset.py:352-354 | splits a day of a March-based year into a month (0..11) and a day that fits within that month's length |
| Calendar.FromDayNumber | pysimbie/dataset.py:344-361 | the date `caldate_1900` computes for a whole day number is always a valid Gregorian date |
| Calendar.ToDayNumberOfFromDayNumber | pysimbie/dataset.py:344-361 | counting days from the independent reference `ToDayNumber` back from the computed date gives the day number: no day is lost or doubled |
| Calendar.FromDayNumberOfToDayNumber | pysimbie/dataset.py:344-361 | every valid date is the result of the conversion for its own day number, so the conversion is onto the valid dates |
| Calendar.ToDayNumberInjective | pysimbie/dataset.py:344-361 | distinct valid dates have distinct day numbers |
| Calendar.MarchYearLength | pysimbie/dataset.py:349-351 | consecutive March-based years differ by 365 days plus `leapyear` of the year their February falls in |
| Calendar.ToDayNumberOfNextDay | pysimbie/dataset.py:344-361 | the following calendar day, including month and year rollover and 29 February, is one day number later |
| Calendar.FromDayNumberSucc | pysimbie/dataset.py:344-361 | the date of day number n + 1 is the calendar day after the date of n |
| Calendar.ClockOf | pysimbie/dataset.py:368-372 | hour, minute and second of a second of the day are in range and add up to that second |
| Calendar.ClockSecondsInjective | pysimbie/dataset.py:368-372 | a valid clock is determined by its total seconds |
| Calendar.YeardayCountsFromJanuaryFirst | pysimbie/dataset.py:362-367 | the `yday` of a date from the tables is its day count from 1 January plus one, and lies in 1..365 or 1..366 in a leap year |
| Calendar.CalDate1900 | pysimbie/dataset.py:331-378 | the dict of `caldate_1900` for a whole-second instant: a valid date whose day number is the re-based day, its year day counted from 1 January, and a valid clock for the second of the day |
| Calendar.CalDateOfDayNumber | pysimbie/dataset.py:331-361 | the date fields of `caldate_1900` are those of the conversion of the re-based day number |
| Calendar.UnixEpochDay | pysimbie/dataset.py:344-361 | the conversion puts day number 2440588 on 1 January 1970 |
| Calendar.RebasedEpochDay | pysimbie/dataset.py:339-361 | a 1900-based day 0 is re-based to 2415021, which converts to 1 January 1900 |
| Calendar.ShiftedDate | pysimbie/dataset.py:268 | twelve hours later falls on the same date before noon and on the next calendar day from noon on |
| Timestamps.AddTwelveHours | pysimbie/dataset.py:268 | `+ timedelta(hours=12)` yields a valid date-time, and fails with an overflow exactly when it passes into the year after 9999 |
| Timestamps.GetDatetime | pysimbie/dataset.py:258-269 | `_get_datetime` succeeds exactly when the converted year is in 1..9999 and the twelve-hour shift stays within 9999; its result is valid and in range. A year outside 1..9999 fails with `YearOutOfRange(year)` (the `ValueError` of `datetime(...)`); a year in range whose shift passes 9999-12-31 fails with `DateOverflow` (the `OverflowError` of `+ timedelta`) |
| Timestamps.GetDatetimeIsTwelveHoursLater | pysimbie/dataset.py:258-269 | the result, counted in seconds from the day-number epoch, is the re-based Julian instant plus 43200 seconds |
| Timestamps.AddTwelveHoursIsTwelveHoursLater | pysimbie/dataset.py:268 | adding twelve hours to a valid date-time advances its absolute seconds by exactly 43200 |
| Timestamps.AddTwelveHoursShifts | pysimbie/dataset.py:268 | the shifted clock is the second of the day plus 43200 modulo a day; the date moves to the next day when that sum reaches a day |
| Timestamps.GetDatetimeMatchesReference | pysimbie/dataset.py:258-269 | the result date is the conversion of the re-based day plus the day carry of the shifted second, and its clock is that of the shifted second modulo a day |
| Timestamps.GetDatetimeStartsAt | pysimbie/dataset.py:259-268 | `_get_datetime` is the twelve-hour shift of the `datetime` built from the `caldate_1900` fields |
| BinaryHeader.DecodeHeader | pysimbie/dataset.py:213-218 | `_parse_header` succeeds exactly when the file has at least 106 bytes, otherwise `struct.error`; the content flags are 45 values |
| BinaryHeader.DecodeHeaderFlags | pysimbie/dataset.py:218 | content flag i is the int16 at bytes 16+2i and 17+2i |
| BinaryHeader.LimitsComeFromFirstSixteenBytes | pysimbie/dataset.py:216-217 | the longitude limits depend only on bytes 0..8 and the latitude limits only on bytes 8..16 |
| BinaryHeader.HeaderComesFromFirstBytes | pysimbie/dataset.py:213-218 | the header depends only on the first 106 bytes of the file |
| BinaryHeader.DecodeHeaderOfEncodeHeader | pysimbie/dataset.py:213-218 | any well-formed header, encoded and followed by any bytes, decodes to itself |
| BinaryHeader.EncodeHeaderOfDecodeHeader | pysimbie/dataset.py:213-218 | the decoded header of any file is well-formed and re-encodes to the file's first 106 bytes |
| BinaryHeader.EncodedFlagsAreInjective | pysimbie/dataset.py:218 | flag byte strings of equal length that decode to the same flags are equal |
| BinaryHeader.ActiveIndicesAreNonzeroSlots | pysimbie/dataset.py:252-253 | `np.where(flags.astype(bool))[0]` lists, in increasing order, exactly the positions whose flag is non-zero |
| BinaryHeader.ActiveIndices | pysimbie/dataset.py:252-253 | `_get_datagroup_indices` lists no more slots than there are flags, and each listed slot is a position whose flag is non-zero |
| RecordLayout.RecordCount | pysimbie/dataset.py:235-240 | no active data group raises `ZeroDivisionError`; otherwise the count of a file of at least a header is non-negative |
| RecordLayout.RecordCountBrackets | pysimbie/dataset.py:238-239 | `nrecs` whole records fit after the header, and one more does not |
| RecordLayout.RecordCountIsUnique | pysimbie/dataset.py:238-239 | any count that fits whole records after the header but not one more is `nrecs` |
| RecordLayout.RecordsFit | pysimbie/dataset.py:224-228 | every record below `nrecs` lies inside the file |
| RecordLayout.Record | pysimbie/dataset.py:227-228 | record r has one value per active group, and value c is the word at byte 106 + r * record size + 8c |
| RecordLayout.RecordValue | pysimbie/dataset.py:227-228 | `data[r, c]` is the word at byte 106 + r * record size + 8c, which lies inside the file |
| RecordLayout.FirstUncoveredSlot | pysimbie/dataset.py:244-246 | the binding loop's `IndexError` comes at the first active slot beyond the key list; all earlier slots have keys |
| RecordLayout.FirstUncoveredSlotIsUnique | pysimbie/dataset.py:244-246 | any slot beyond the keys with all earlier slots covered is that first slot |
| RecordLayout.Register | pysimbie/dataset.py:243-246 | the registered names are exactly the keys of the active slots, and each maps to a column whose slot carries that key |
| RecordLayout.RegisterExtend | pysimbie/dataset.py:245-246 | one more loop iteration adds the next key, bound to its column, and keeps every other binding |
| RecordLayout.RegisterKeepsLastSlot | pysimbie/dataset.py:245-246 | a key that names several active slots ends bound to the last of them: the dict assignment overwrites |
| RecordLayout.RegisterBindsEachSlot | pysimbie/dataset.py:245-246 | with distinct keys and increasing slots, each slot's key is bound to that slot's column |
| Filenames.Find | pysimbie/dataset.py:291 | the first occurrence of a character, or the length when there is none |
| Filenames.Split | pysimbie/dataset.py:291 | `str.split(c)` yields at least one piece, none containing c; a single piece exactly when c does not occur; the first piece runs up to the first c |
| Filenames.JoinOfSplit | pysimbie/dataset.py:291 | joining the pieces of a split with the separator gives the string back |
| Filenames.SplitOfJoin | pysimbie/dataset.py:291 | splitting pieces free of the separator after joining them gives the pieces back |
| Filenames.TailStart | pysimbie/dataset.py:289-290 | the last path component starts after the last `/`, or at 0 when there is none |
| Filenames.TailStartAfterDirectory | pysimbie/dataset.py:289-290 | for a directory ending in `/` followed by a slash-free name, the tail starts right after the directory |
| Filenames.StripTrailingSlashes | pysimbie/dataset.py:289 | the head of `os.path.split` drops only trailing slashes, and what remains does not end in one |
| Filenames.SplitPath | pysimbie/dataset.py:289-290 | the tail of `os.path.split` is the text after the last `/` and holds no `/` |
| Filenames.JoinPath | pysimbie/dataset.py:293 | `os.path.join(a, b)` is `b` when `b` is absolute; otherwise it starts with `a` and ends with `b`, with exactly one `/` put between them when `a` is non-empty and does not already end with `/` |
| Filenames.FileBasename | pysimbie/dataset.py:285-295 | without `fullpath`, the base name is the prefix of the last path component up to its first `.` |
| Filenames.FileBasenameOfPath | pysimbie/dataset.py:285-295 | for `dir/name.ext` with `name` free of `/` and `.`, the base name is `name` |
| Filenames.DecimalValue | pysimbie/dataset.py:184 | a non-empty digit string converts to a number below 10^length; anything else raises `ValueError` |
| Filenames.DecimalValueOfDecimalString | pysimbie/dataset.py:184 | reading back the decimal digits of any natural number gives the number |
| Filenames.LeadingZeroIgnored | pysimbie/dataset.py:184 | a leading zero does not change the value of a digit string |
| Filenames.OrbitOfFilename | pysimbie/dataset.py:175-184 | the orbit is the integer value of the second `_`-token of the base name; a base name with fewer than two tokens raises `IndexError` |
| Filenames.OrbitOfStructuredName | pysimbie/dataset.py:175-184 | for any path `dir/MISSION_<orbit>_<rest>.<ext>` the orbit read is that orbit number |
| Filenames.SplitAfterPiece | pysimbie/dataset.py:182 | splitting a separator-free piece, the separator and a rest gives the piece followed by the pieces of the rest |
| AwiOrbit.Squeeze | pysimbie/dataset.py:209-211 | `np.squeeze` of a column turns exactly the one-element columns into a scalar; other columns are kept |
| AwiOrbit.AllTrue | pysimbie/dataset.py:229 | `np.full(n, True)` and `np.ones(n, bool)` have n entries, all set |
| AwiOrbit.BoundTags | pysimbie/dataset.py:202-207 | the number of the six names read after `time` that are bound before the first unbound one: all names before it are bound, and the name at it is not |
| AwiOrbit.PartlyConstructed | pysimbie/dataset.py:201-207 | the parameters after the timestamps and the first k other assignments: those k hold their bound columns, and the later ones keep their earlier values |
| AwiOrbit.ParametersByColumn | pysimbie/dataset.py:200-207 | proof helper for `ConstructFromColumns`: a `Parameters` value is determined by its timestamps and its six columns, so the seven field assignments at these lines determine the result |
| AwiOrbit.Datagroup | pysimbie/dataset.py:209-211 | `get_datagroup` over a table given by its columns: an unbound tag raises `KeyError` (`UnknownDatagroup(tag)`); a bound one gives its column, squeezed to a scalar exactly when the column holds one record |
| AwiOrbit.GroupsOf | pysimbie/dataset.py:198-207 | `construct_data_groups` over a table of n records given by its columns: it succeeds only when `time` is bound and n is not 1, and then yields one timestamp per record (errors and values in `GroupsOfMeaning`) |
| AwiOrbit.GroupsOfMeaning | pysimbie/dataset.py:198-207 | over any table of columns: `KeyError` for an unbound `time`; `TypeError` for one record; the first conversion error; `KeyError` for the first unbound name; else the converted times and each name's column |
| AwiOrbit.GroupsOfColumns | pysimbie/dataset.py:198-207 | a successful construction has every name bound, one timestamp per record, each the conversion of that record's `time` value, and each parameter equal to its bound column |
| AwiOrbit.FileColumns | pysimbie/dataset.py:220-228 | the file's records as columns: k columns of n values, value r of column c being value c of record r |
| AwiOrbit.ContentFromRecords | pysimbie/dataset.py:166-207 | after a successful construction, record r's timestamp is the conversion of its `time` value, read at the slot position `time` is bound to |
| AwiOrbit.ContentColumnsFromRecords | pysimbie/dataset.py:166-207 | after a successful construction, each of the six other parameters holds every record's value at the slot position its name is bound to |
| AwiOrbit.ContentTimestamps | pysimbie/dataset.py:198-200 | with the conversion `__init__` uses, record r's timestamp is `_get_datetime` of the Julian instant its `time` value encodes |
| AwiOrbit.LayoutOutcome | pysimbie/dataset.py:186-192 | how the first steps of `parse_content` end. `struct.error` (`ShortHeader`) exactly for a file shorter than the header. `ZeroDivisionError` (`NoActiveDatagroups`) exactly when no flag is set. An `IndexError` names an active slot beyond the key list. On success some slot is active, every active slot has a key, and the record count is defined |
| AwiOrbit.ContentOutcome | pysimbie/dataset.py:166-207 | what `__init__` leaves after the file name is read: a layout error is passed on unchanged; on success the layout passed and the number of timestamps is the record count the file size gives (per-record values in `ContentFromRecords`, `ContentColumnsFromRecords`, `ContentTimestamps`) |
| AwiOrbit.RecordTimestamp | pysimbie/dataset.py:200 | the conversion the list comprehension applies to each time value (`_get_datetime` of its decoded Julian instant): any datetime it yields is valid with a year in 1..9999, and it fails only with `DateOverflow` (`OverflowError`) or `YearOutOfRange` (`ValueError`) |
| AwiOrbit.AwiOrbitThickness.constructor | pysimbie/dataset.py:24-34 | the base-class fields: track and orbit ids are `"n/a"`, with no parameters and no bindings yet |
| AwiOrbit.AwiOrbitThickness.ParseHeader | pysimbie/dataset.py:213-218 | the limits and flags are those of the decoded header. A file under 106 bytes fails with `ShortHeader` (`struct.error`) and leaves the flags as they were. The limits assigned before the failing unpack stay set: the longitude limits from a file of at least 8 bytes, the latitude limits from one of at least 16; any limit not reached keeps its old value |
| AwiOrbit.AwiOrbitThickness.GetNRecords | pysimbie/dataset.py:235-240 | file size, number of active groups, `nrecs` and record size as the file and flags give them. No active group fails with `NoActiveDatagroups` (`ZeroDivisionError`) after the file size and group count are set, leaving `nrecs` and the record size unchanged |
| AwiOrbit.AwiOrbitThickness.BindDatagroups | pysimbie/dataset.py:243-246 | the loop binds exactly the keys of the active slots; at a slot beyond the keys it fails with that slot's index, having bound every slot before it |
| AwiOrbit.AwiOrbitThickness.ConstructDatagroups | pysimbie/dataset.py:242-250 | on success, the bindings plus a fresh `nrecs` x `n_datagroups` table and an all-true export mask; on failure, the `IndexError` at the first uncovered slot with the table left alone |
| AwiOrbit.AwiOrbitThickness.StoreRow | pysimbie/dataset.py:228 | `self.data[i, :] = values`: row i takes the record's values and every other row is kept |
| AwiOrbit.AwiOrbitThickness.ParseRecords | pysimbie/dataset.py:220-229 | every cell `data[r, c]` holds the word at byte 106 + r * record size + 8c, and the region-of-interest mask is all true |
| AwiOrbit.AwiOrbitThickness.GetDatagroup | pysimbie/dataset.py:209-211 | an unbound tag raises `KeyError`; a bound one gives the squeezed column it is bound to |
| AwiOrbit.AwiOrbitThickness.DataGroups | pysimbie/dataset.py:198-207 | what `construct_data_groups` reads from the object's table: on success `time` is bound, the table does not hold exactly one record, and there is one timestamp per record (errors and values in `DataGroupsMeaning`) |
| AwiOrbit.AwiOrbitThickness.TableColumns | pysimbie/dataset.py:211 | `self.data[:, c]`: column c has one value per record, the table's cell of that record in column c |
| AwiOrbit.AwiOrbitThickness.CreateAttributes | pysimbie/dataset.py:231-233 | one attribute per bound name, holding that name's squeezed column; no other attribute changes |
| AwiOrbit.AwiOrbitThickness.ReadLayout | pysimbie/dataset.py:186-192 | the header, count and binding steps end as `LayoutOutcome`: short header, no active group, or first uncovered slot, in that order |
| AwiOrbit.AwiOrbitThickness.CountAndTable | pysimbie/dataset.py:188-192 | on a header already read, the count and binding steps end as `LayoutOutcome` and leave a sized table |
| AwiOrbit.AwiOrbitThickness.ParseContent | pysimbie/dataset.py:186-196 | `parse_content` fails exactly as `LayoutOutcome` says; on success the table holds every record and the attributes are the squeezed columns |
| AwiOrbit.AwiOrbitThickness.ReadRecords | pysimbie/dataset.py:194-196 | reads every record into the table, then adds one attribute per bound name |
| AwiOrbit.AwiOrbitThickness.ParsedKept | pysimbie/dataset.py:198-207 | a later step that writes none of the fields read so far keeps the parsed state |
| AwiOrbit.AwiOrbitThickness.TimeStamps | pysimbie/dataset.py:199-200 | the timestamps of the `time` column, one per record and in order, each the conversion of its record value, or the conversion's error |
| AwiOrbit.AwiOrbitThickness.DataGroupsMeaning | pysimbie/dataset.py:198-207 | `construct_data_groups` succeeds exactly when `time` is bound, the table does not hold exactly one record (a file of zero records succeeds with empty parameters), every time converts, and all six other names are bound. Errors: `KeyError` for `time`; `TypeError` for a one-record column; the conversion error; else the first unbound name in source order. On success each parameter is its column |
| AwiOrbit.AwiOrbitThickness.DataGroupsKept | pysimbie/dataset.py:198-207 | what `construct_data_groups` reads depends only on the bindings and the table |
| AwiOrbit.AwiOrbitThickness.ConstructedHoldsColumns | pysimbie/dataset.py:198-207 | once constructed, the timestamps are those of the `time` column and each parameter holds its data group's column |
| AwiOrbit.AwiOrbitThickness.ParsedFromFile | pysimbie/dataset.py:186-207 | after `parse_content`, what `construct_data_groups` reads is `ContentOutcome` of the file bytes and keys |
| AwiOrbit.AwiOrbitThickness.ConstructDataGroups | pysimbie/dataset.py:198-207 | succeeds exactly when every read succeeds, setting all seven parameters to the values read; otherwise fails with the first error raised. If the error comes before the timestamps are assigned, no parameter changes; otherwise the timestamps and the parameters before the failing name hold their new values and the rest keep their old ones |
| AwiOrbit.AwiOrbitThickness.ConstructFromColumns | pysimbie/dataset.py:198-207 | `construct_data_groups` on a snapshot of the table's columns: the same outcome and the same assignment-by-assignment effect on the fields |
| AwiOrbit.AwiOrbitThickness.ReadParameters | pysimbie/dataset.py:202-207 | the six assignments after the timestamps: success exactly when all six names are bound; otherwise `KeyError` for the first unbound name, with the earlier parameters assigned and the later ones unchanged |
| AwiOrbit.AwiOrbitThickness.Load | pysimbie/dataset.py:171-172 | a layout failure is the error; otherwise the outcome is that of `construct_data_groups`. The outcome and the parameters are `ContentOutcome` of the file and keys, and success leaves the object parsed and constructed |
| AwiOrbit.AwiOrbitThickness.NRecordsIsRecordCount | pysimbie/dataset.py:76-78 | `n_records` of a loaded object is `nrecs`, the count the file size gives, and every parameter has that many entries |
| AwiOrbit.LayoutSucceedsExactly | pysimbie/dataset.py:186-192 | reading the layout succeeds exactly when the file holds a full header, some flag is set, and every set flag's slot has a configured key |
| AwiOrbit.SetEach | pysimbie/dataset.py:231-233 | setting one attribute per update, in any order, gives the old attributes overridden by the updates |
| AwiOrbit.Open | pysimbie/dataset.py:166-172 | `AWIOrbitThickness(...)`: a bad file name decides the error, then a bad layout. With a good file name, construction succeeds exactly when `ContentOutcome` of the file and keys does, and fails with its error. A constructed object has the orbit number of its file name, is parsed and constructed, and holds the parameters `ContentOutcome` gives |
| NasaJplOrbit.RecordLines | pysimbie/dataset.py:120 | `content[3:]`: the lines after the first three, none when there are at most three; the three header lines followed by the record lines make up the file |
| NasaJplOrbit.NasaJplOrbitThickness.constructor | pysimbie/dataset.py:24-34 | the base-class fields: track and orbit ids are `"n/a"`, with no parameters yet |
| NasaJplOrbit.NasaJplOrbitThickness.InitParameterGroups | pysimbie/dataset.py:36-40 | one new array of n entries per parameter, all distinct |
| NasaJplOrbit.NasaJplOrbitThickness.Rows | pysimbie/dataset.py:136-143 | the records the parameter arrays hold, entry by entry |
| NasaJplOrbit.NasaJplOrbitThickness.FillIceDensity | pysimbie/dataset.py:145-146 | `ice_density[:] = 920.0`: every entry is the default ice density |
| NasaJplOrbit.NasaJplOrbitThickness.FillRows | pysimbie/dataset.py:127-143 | the loop stores the values of record line i at entry i of each parameter, or stops with the error of the first line that does not read |
| NasaJplOrbit.NasaJplOrbitThickness.Parse | pysimbie/dataset.py:112-146 | `parse` succeeds exactly when every record line reads, failing with the first line's error. On success every parameter has one entry per record line, holding that line's values, and the ice density is 920.0 throughout |
| NasaJplOrbit.NasaJplOrbitThickness.ParsedRecords | pysimbie/dataset.py:120-146 | after a parse, `n_records` is the number of lines minus three (or zero), entry i holds record line i, and every ice density is the default |
| NasaJplOrbit.FirstFailure | pysimbie/dataset.py:127-128 | the first line that fails to read decides the error of the whole loop |
| NasaJplOrbit.Open | pysimbie/dataset.py:106-110 | `NASAJPLOrbitThickness(filename)` succeeds exactly when `parse` does, and a constructed object is parsed |

## Left out

- Floating point.
  - The limits in the header and the record values are kept as their raw 32-bit and 64-bit little-endian words.
  - Decoding a time word into a Julian instant is a caller-supplied function, the `decodeTime` parameter of `AwiOrbit.Open`.
  - Parsing NASA-JPL line tokens with `float()`, and building `datetime + timedelta` from them, are also caller-supplied.
- `Calendar.CalDate1900`: models whole-second Julian instants only.
  - It leaves out the `5.0e-9` round-off nudge and rounding of the fraction of a day.
  - It leaves out the `msec` field and the microseconds passed to `datetime`.
- `NasaJplOrbit.NasaJplOrbitThickness.Parse`: the reader of one line is a parameter, so the `IndexError` of a short line is one of the errors that reader may return.
- `Filenames.DecimalValue`: does not model `np.int16` parsing of a sign or surrounding whitespace, nor what `np.int16` does with orbit numbers above 32767 (the model keeps the full value).
- `Filenames.FileBasename`: with `fullpath` set, the result is modelled (`os.path.join` of head and base name) but no property is proved about it.
- File I/O is modelled as the file's content: `open`, `os.path.getsize`, `readlines` and reading bytes.
- `configuration_file_ordereddict` and the `simplejson` reader: the configuration is given as its ordered list of output keys.
- `parameter_quickview`, including its `plt.show()` call (plotting).
- `has_timestamp`, the `dtype` table, and `_get_datetime_str` / `_get_datetime_records_str` (formatting).
- `Filenames` models POSIX paths only (`posixpath`), with `/` as the only separator. It does not model Windows drive letters or backslashes (`ntpath`).
- `AwiOrbit.AwiOrbitThickness.CreateAttributes`: the source's `setattr` writes the attributes onto the object itself. The model keeps them in a separate `attributes` map. A configured key equal to a field name (`data`, `timestamp`, `nrecs`, ...) would overwrite that field in the source but not in the model.
