# telegram_bot systems monitor, modelled in Dafny

This project models the core of the truflation `telegram_bot` systems monitor. The monitor
keeps JSON log files, each a time series from a timestamp key to a record. It scans those
files on a schedule and sends two kinds of Telegram message. Alarm text goes to the main
chat. Heartbeat text goes to a heartbeat chat, at most once per configured wait period for
each kind.

The model covers these parts:

- **The log store** (`utilities.py`). A log file is the `LogStore.LogFile` class. Its field
  `disk` holds the file's state: absent, blank, undecodable, or a decoded object. The
  decoded object is kept as an ordered list of (key, record) pairs, with `Dicts.ToMap` as
  its mapping view. The order matters because the order of the records decides the order
  of the alert text. The class models `check_log_file`, `load_logs_into_dict`,
  `save_logs`, `log_to_bot` and `delete_entries_older_than_x_days` (the two loops of the
  last one are the methods `CollectExpired` and `DeleteAll`). `process_input_data` is a
  function, and so is the parse order of `str_to_datetime`.
- **The general-log scan** (`check_values`, `process_general_log_files`,
  `get_files_given_key` and the server label). Each scan is a loop method, proved equal to
  a specification function (`Scan`, `Process`). The cursor, alarm-word and text
  properties are lemmas about those functions.
- **The system-health scan** (`check_system_health`): the staleness line, the threshold
  loop, the newest-record heartbeat line and the threshold report. The file loop, the
  record loop and the threshold loop are each a method proved against a function. The
  lemmas state that `my_records` only ever holds readings that really exceed their
  threshold, and that its keys are exactly the health log files.
- **The heartbeat gate** (`send_heartbeat_and_alarm_messages`, `print_to_heartbeat_chat`).
  The last-sent table is the `Heartbeat.Throttle` class. The messages sent are appended
  to its ghost `outbox`. The gate is also a function, `Gate`, and its throttling is a lemma.
- **The monitor's globals and its scheduled checks** (`Monitor.Monitor`). The class holds
  the two cursors and the throttle. Its methods model `check_general_logs`,
  `check_system_health`, `daily_checks`, `reset` and `move_to_end`.
- **The job switches** (`Jobs.Scheduler`): the four `enabled` flags set by `stop_logs`,
  `start_logs` and `_start_logs`, plus the pending wake-up and token total of `sleep_time`.

Times in the log files and the cursors are integer microseconds since the epoch. The
heartbeat table, the wait periods and sleep durations are whole seconds, as
`int(time.time())` gives them. Clocks, directory listings and file modification times are
parameters. The Python standard-library conversions are fields of the `Formats.Codec`
datatype and are not modelled further: `float()` (a finite number, an infinity or NaN),
whether `datetime.fromtimestamp` can place a time, `fromisoformat`, the strict `strptime`
format, `isoformat`, `str()` of a time or a value, and `json.loads`. Every exception the
code can raise is a `Results.Fault` carried by `Err`. None of them is a precondition.

Where the code and its documented intent disagree, the model follows the code:

- The gate reads `heartbeat_last_message_dic[kind]`. It does not read
  `.get(kind, startup)`, so a kind missing from the wait-period configuration raises
  `KeyError`. This happens only when there is heartbeat text, and it is `MissingKey`.
- `/reset` and `/move_to_end` move only the health cursor (`last_check_timestamp`). The
  general-log cursor is untouched.
- `check_system_health` never moves its cursor forward. `/reset` can move it back.
- Appending and pruning take no lock.
- A sleep token with two or more `=` raises `ValueError`. It does not count as 0.
- `daily_checks` tests `len(alert) > 400` but cuts 4000 characters at a time.
  `Daily.ChunksMatchFullSize` proves that this sends the same pieces as a `> 4000` test.

These quirks are reproduced as written:

- The threshold loop overwrites the whole alert text with its "not found" line.
- The threshold loop looks up `my_records[name]` by field name although `my_records` is
  keyed by file name. `Health.GuardAlwaysHolds` shows that the guard therefore always
  holds.
- Pruning reads ISO keys with `fromisoformat`, while scanning uses the strict format.
  `isoformat()` leaves out a zero fraction. A whole-second key is therefore pruned normally
  but makes every scan of its file fail (`Formats.WholeSecondStamp`,
  `GeneralLogs.ScanRefusesWholeSecond`).
- Pruning reads a key with bare `float()`, while scanning also needs
  `datetime.fromtimestamp` to accept it. A key such as "inf", "nan" or "1e20" is read by
  pruning but refused by every scan (`Formats.UnplaceableNumber`). Pruning keeps "inf" and
  "nan" keys forever and always drops "-inf" ones (`LogStore.NonFiniteKeys`).
- A health log file that decodes to JSON whose top level is not an object (`[]`, `5`) is
  not caught by the `try` around the decode. `.items()` raises after it, so the whole health
  check fails and sends nothing (`Health.NonObjectAborts`).

## Model

| member | source | states |
|---|---|---|
| Formats.ParseOrder | src/telegram_bot/utilities.py:26-32 | A key that `float()` reads is that number for pruning. It is a time for scanning exactly when it is finite and `fromtimestamp` can place it, and then both agree. Only a key that is not a number goes to the ISO parsers: `fromisoformat` when pruning, the strict format when scanning. |
| Formats.UnplaceableNumber | src/telegram_bot/utilities.py:127-135 | A key that `float()` reads but `fromtimestamp` cannot place (an infinity, NaN, or a time out of range) is read by pruning and refused by `str_to_datetime`. |
| Formats.WholeSecondStamp | src/telegram_bot/utilities.py:127-135 | A stamp that `fromisoformat` reads but the strict `%Y-%m-%dT%H:%M:%S.%f` format refuses is read by pruning and refused by `str_to_datetime`. |
| LogStore.Read | src/telegram_bot/utilities.py:57-69 | Loading fails exactly for a file that is not JSON (`JSONDecodeError`) or whose top level is not an object (the caller's `.items()` or `.update` raises). A missing or empty file loads as `{}`. |
| LogStore.Created | src/telegram_bot/utilities.py:43-54 | Creating a missing file (holding `{}`) does not change what loading it gives, and leaves no file absent. |
| LogStore.ProcessInputData | src/telegram_bot/utilities.py:84-102 | A dict passes through unchanged. A string that decodes gives its decoded value. A string that does not decode becomes `{"general": s}`. Any other type raises, and nothing else does. |
| LogStore.PrunedFails | src/telegram_bot/utilities.py:26-32 | A prune fails exactly when some key cannot be read as a time. The error names the first such key. |
| LogStore.NonFiniteKeys | src/telegram_bot/utilities.py:29-35 | A key `float()` reads as an infinity or NaN: "inf" and "nan" are kept by every prune, "-inf" by none. |
| LogStore.PrunedSpec | src/telegram_bot/utilities.py:24-38 | A successful prune keeps exactly the entries whose time is not before the cutoff. An entry at the cutoff is kept. The result is the store with its stale keys dropped, so kept entries keep their values and their order. |
| LogStore.PrunedMap | src/telegram_bot/utilities.py:37-40 | As a mapping, the pruned store has exactly the fresh keys of the old one, each with an unchanged record, and no new key. |
| LogStore.PrunedIdempotent | src/telegram_bot/utilities.py:26-38 | Pruning again with the same cutoff changes nothing. |
| LogStore.PrunedDistinct | src/telegram_bot/utilities.py:37-40 | A prune keeps a store without repeated keys free of repeated keys. |
| LogStore.ExpiredPruned | src/telegram_bot/utilities.py:24-38 | Collecting the stale keys and then deleting them one by one leaves exactly what the prune specification keeps. Both fail on the same key. |
| LogStore.ExpiredKeys | src/telegram_bot/utilities.py:24-35 | Every collected key is a key of the store. |
| LogStore.ExpiredStops | src/telegram_bot/utilities.py:26-32 | When the collecting loop stops at an unreadable key, the specification fails on that same key. |
| LogStore.CollectExpired | src/telegram_bot/utilities.py:24-35 | The first loop collects the keys older than the cutoff in file order, or fails on the first unreadable key. |
| LogStore.DeleteAll | src/telegram_bot/utilities.py:37-38 | The `del` loop leaves the store without exactly the collected keys. |
| LogStore.LogFile.constructor | src/telegram_bot/utilities.py:57-69 | A log file at a path with the given disk state, with no repeated keys. |
| LogStore.LogFile.CheckLogFile | src/telegram_bot/utilities.py:43-54 | An empty path raises and changes nothing. Otherwise a missing file is created holding `{}`. |
| LogStore.LogFile.Load | src/telegram_bot/utilities.py:57-69 | Loading returns what `Read` gives for the old disk state, after creating a missing file. An empty path raises. |
| LogStore.LogFile.Save | src/telegram_bot/utilities.py:72-81 | Saving writes exactly the given entries, or raises for an empty path without writing. |
| LogStore.LogFile.Prune | src/telegram_bot/utilities.py:11-40 | The file afterwards holds exactly the pruned entries. An unreadable file or key raises, and nothing is written. |
| LogStore.LogFile.LogToBot | src/telegram_bot/utilities.py:105-121 | On success, the stored mapping is the old one with only the ISO stamp of now set to the processed record. That key keeps its place, or goes last when new. Each error case is stated, and it leaves the file unchanged. |
| Dicts.PutProperties | src/telegram_bot/utilities.py:120 | `d[k] = v` changes the mapping at `k` only, keeps keys distinct, and appends a new key at the end. |
| Dicts.WithoutMap | src/telegram_bot/utilities.py:37-38 | Dropping a set of keys removes exactly those keys from the mapping. |
| Dicts.RemoveAfterWithout | src/telegram_bot/utilities.py:37-38 | Deleting one more key is the same as dropping the enlarged set of keys. |
| Text.JoinSplit | src/telegram_bot/systems_monitor_bot.py:241 | Joining the pieces of `split(sep)` with `sep` gives back the string. |
| Text.SplitAtLeastTwo | src/telegram_bot/systems_monitor_bot.py:763 | A string that contains the separator splits into at least two pieces, so `split("/stop")[1]` exists. |
| Text.SplitAtFirst | src/telegram_bot/systems_monitor_bot.py:806 | A split on one character cuts at its first occurrence. |
| Text.StripBlank | src/telegram_bot/systems_monitor_bot.py:511 | `strip()` gives the empty string exactly for blank text, and what it gives is a slice of the text. |
| Text.DecimalRoundTrip | src/telegram_bot/systems_monitor_bot.py:807 | `int()` of the decimal text of a number gives the number back. |
| GeneralLogs.Select | src/telegram_bot/systems_monitor_bot.py:185-190 | The heartbeat fields are those whose name is not an alarm word, and the alarm fields are those whose name is one. |
| GeneralLogs.SelectPartition | src/telegram_bot/systems_monitor_bot.py:185-192 | Every field of a record goes to exactly one of the two texts. None is lost or repeated (a multiset equality). |
| GeneralLogs.BlockNonEmpty | src/telegram_bot/systems_monitor_bot.py:186-192 | A time block is added exactly when its list of fields is non-empty. |
| GeneralLogs.ScanFails | src/telegram_bot/systems_monitor_bot.py:176-185 | `check_values` fails exactly when some key cannot be read, or some record newer than the cursor is not a mapping. |
| GeneralLogs.ScanRefusesWholeSecond | src/telegram_bot/systems_monitor_bot.py:177 | A whole-second ISO key makes the scan of its file fail whatever the cursor, although pruning reads it. |
| GeneralLogs.ScanCursor | src/telegram_bot/systems_monitor_bot.py:174-183 | The returned cursor is the maximum of the given cursor and every record's time. |
| GeneralLogs.ScanLast | src/telegram_bot/systems_monitor_bot.py:180-183 | The last record raises the cursor to its own time when that time is newer, and leaves it otherwise. |
| GeneralLogs.ScanRecordBound | src/telegram_bot/systems_monitor_bot.py:182-183 | Every record's time is at most the returned cursor. |
| GeneralLogs.ScanFloor | src/telegram_bot/systems_monitor_bot.py:174 | The returned cursor is never below the given one. |
| GeneralLogs.ScanAttained | src/telegram_bot/systems_monitor_bot.py:182-183 | The returned cursor is the given one or the time of some record. |
| GeneralLogs.ScanSkipsOld | src/telegram_bot/systems_monitor_bot.py:180-181 | Removing a record at or before the cursor changes no part of the result. |
| GeneralLogs.CheckValues | src/telegram_bot/systems_monitor_bot.py:162-194 | The loop computes `Scan`: both texts and the cursor, or the first fault. |
| GeneralLogs.ScanStops | src/telegram_bot/systems_monitor_bot.py:177-185 | When the loop stops at a record, the scan fails at that record. |
| GeneralLogs.ServerLabelSpec | src/telegram_bot/systems_monitor_bot.py:241 | The label is what follows the first `.` of the name before ".json". It is empty when there is no `.`. |
| GeneralLogs.FilesWithKey | src/telegram_bot/systems_monitor_bot.py:197-206 | Exactly the listed files whose name contains the key, and no more of them than were listed. |
| GeneralLogs.FilesWithKeyAppend | src/telegram_bot/systems_monitor_bot.py:197-206 | Filtering a listing is filtering its parts and concatenating, so the kept files stay in listing order. |
| GeneralLogs.FilesWithKeyOne | src/telegram_bot/systems_monitor_bot.py:205 | A single file is kept exactly when its name contains the key. |
| GeneralLogs.Add | src/telegram_bot/systems_monitor_bot.py:250-258 | Folding a file into the aggregate keeps the alert empty, and the outer cursor becomes the larger of the two. |
| GeneralLogs.ProcessCursor | src/telegram_bot/systems_monitor_bot.py:237-258 | Every file is scanned from the same starting cursor. The aggregate cursor is at least that cursor and every file's scan cursor. The alert text is empty. |
| GeneralLogs.ProcessFloor | src/telegram_bot/systems_monitor_bot.py:237-258 | The aggregate cursor is never below the given one, and the alert is empty. |
| GeneralLogs.ProcessFileBound | src/telegram_bot/systems_monitor_bot.py:250-258 | Each file's scan succeeds, and its cursor is at most the aggregate cursor. |
| GeneralLogs.ProcessLast | src/telegram_bot/systems_monitor_bot.py:257-258 | The last file raises the outer cursor to the maximum of it and its own. |
| GeneralLogs.ProcessAttained | src/telegram_bot/systems_monitor_bot.py:237-258 | The aggregate cursor is the given one or the cursor of some file's scan: it is their maximum. |
| GeneralLogs.ScanFile | src/telegram_bot/systems_monitor_bot.py:249-251 | One iteration loads the file and scans it from the given cursor. |
| GeneralLogs.ProcessGeneralLogFiles | src/telegram_bot/systems_monitor_bot.py:222-266 | The loop computes `Process`: the aggregated texts and cursor, or the first file's fault. |
| GeneralLogs.ProcessStops | src/telegram_bot/systems_monitor_bot.py:249-251 | When the file loop stops at a file, the aggregate fails with that file's fault. |
| Heartbeat.HeartbeatSend | src/telegram_bot/systems_monitor_bot.py:508-516 | Blank heartbeat text (empty or whitespace only) sends nothing. Any other text sends exactly one message, itself, to the heartbeat chat. |
| Heartbeat.AlarmSend | src/telegram_bot/systems_monitor_bot.py:293-294 | Alarm text is sent to the alarm chat exactly when it is non-empty. |
| Heartbeat.Gate | src/telegram_bot/systems_monitor_bot.py:288-289 | The gate raises `KeyError` exactly when there is heartbeat text and the kind has no entry in the table. |
| Heartbeat.GateSpec | src/telegram_bot/systems_monitor_bot.py:288-294 | Only the kind's own entry changes, to now exactly when heartbeat text was due under the strict `<` test. Alarm text is sent iff non-empty. Heartbeat text is sent iff due and not blank. Nothing else is sent. |
| Heartbeat.AtMostOncePerPeriod | src/telegram_bot/systems_monitor_bot.py:288-291 | After a heartbeat of a kind goes out at `now`, no heartbeat of that kind goes out until strictly more than its wait period has passed. Only alarm text is sent meanwhile. |
| Heartbeat.GateExample | src/telegram_bot/systems_monitor_bot.py:288-291 | With a 20-second wait, a heartbeat sent 10 seconds ago blocks a new one, and one sent 30 seconds ago lets it through. |
| Heartbeat.Throttle.constructor | src/telegram_bot/systems_monitor_bot.py:88-90 | The table starts with one entry per configured kind, all at the start time, and nothing sent. |
| Heartbeat.Throttle.PrintToHeartbeatChat | src/telegram_bot/systems_monitor_bot.py:508-516 | Appends what `HeartbeatSend` gives to the outbox. |
| Heartbeat.Throttle.SendAlarm | src/telegram_bot/systems_monitor_bot.py:293-294 | Appends the message to the alarm chat. |
| Heartbeat.Throttle.SendHeartbeatAndAlarm | src/telegram_bot/systems_monitor_bot.py:269-294 | The table and outbox become what `Gate` decides. On `KeyError` nothing changes. |
| Health.Stale | src/telegram_bot/systems_monitor_bot.py:433-434 | A staleness line is written exactly when the file is more than an hour old. |
| Health.StaleLine | src/telegram_bot/systems_monitor_bot.py:434 | The staleness line is never empty. |
| Health.StaleExample | src/telegram_bot/systems_monitor_bot.py:433-434 | A file modified 90 minutes ago gets "... has not been updated in 1.0 hours.". One modified exactly an hour ago gets no line. |
| Health.Has | src/telegram_bot/systems_monitor_bot.py:463 | `name in data` raises exactly for a value that is not an object, list or string. On an object it tests the keys. |
| Health.Lookup | src/telegram_bot/systems_monitor_bot.py:464 | `data[name]` succeeds exactly on an object holding the name, and gives that key's value. On an object it otherwise raises `KeyError`. |
| Health.Exceeds | src/telegram_bot/systems_monitor_bot.py:464 | `value > threshold` raises exactly for a value that is not a number or boolean; an integer compares as itself, `NaN` never exceeds, `Infinity` always does and `-Infinity` never does. |
| LogStore.JoinPath | src/telegram_bot/systems_monitor_bot.py:428-437 | `os.path.join(bot_directory, file_name)` keeps the directory as a prefix and the name as a suffix, adding one `/` exactly when the directory is non-empty and does not end in `/`. |
| Health.Latest | src/telegram_bot/systems_monitor_bot.py:472-474 | The newest record is a record with the greatest time. An empty file raises `IndexError`. |
| Health.LatestLines | src/telegram_bot/systems_monitor_bot.py:476 | On success there are as many parts as threshold names. |
| Health.LatestLinesOk | src/telegram_bot/systems_monitor_bot.py:476 | The parts are produced exactly when the newest record has every threshold name. |
| Health.LatestLinesParts | src/telegram_bot/systems_monitor_bot.py:476 | Part i is the i-th threshold name, `: `, and `str()` of that name's value in the newest record. |
| Health.LatestLinesFault | src/telegram_bot/systems_monitor_bot.py:476 | A failure is the `KeyError` (or the failed lookup on a non-object) of the first threshold name the record does not provide. |
| Health.ThresholdsClean | src/telegram_bot/systems_monitor_bot.py:415-417 | No threshold name contains "health_logs". |
| Health.GuardAlwaysHolds | src/telegram_bot/systems_monitor_bot.py:466 | In a sound state, `name not in my_records` always holds, so the lookup `my_records[name][0]`, which would raise, is never reached. |
| Health.ThresholdStepSpec | src/telegram_bot/systems_monitor_bot.py:462-469 | One threshold check raises only where Python would. A missing field overwrites the whole alert with its "not found" line. An exceeding value is recorded under the file and field with the record's time. Otherwise nothing changes. |
| Health.ThresholdStepSound | src/telegram_bot/systems_monitor_bot.py:462-469 | A threshold check keeps `my_records` sound and its keys unchanged. |
| Health.CheckThresholdsSound | src/telegram_bot/systems_monitor_bot.py:462-469 | The threshold loop keeps `my_records` sound and its keys unchanged. |
| Health.RecordStepSound | src/telegram_bot/systems_monitor_bot.py:451-461 | A record older than the cursor is never checked, so every recorded reading is at or after the cursor. |
| Health.ScanRecordsSound | src/telegram_bot/systems_monitor_bot.py:451-469 | The record loop keeps `my_records` sound and its keys unchanged. |
| Health.EnterSound | src/telegram_bot/systems_monitor_bot.py:436 | `my_records[file_name] = dict()` keeps `my_records` sound, with the file name among its keys. |
| Health.FileBodySound | src/telegram_bot/systems_monitor_bot.py:448-478 | A decoded file keeps `my_records` sound and its keys unchanged. |
| Health.FileContentSound | src/telegram_bot/systems_monitor_bot.py:437-444 | Reading a file that is gone, is not JSON, or holds an object keeps `my_records` sound and its keys unchanged. |
| Health.EnterFileSound | src/telegram_bot/systems_monitor_bot.py:436-478 | One file keeps `my_records` sound. Its keys become the old keys with the file's name set. |
| Health.FileStepSound | src/telegram_bot/systems_monitor_bot.py:427-478 | The same holds for a loop iteration whose staleness line comes from the clock. |
| Health.ScanFilesSound | src/telegram_bot/systems_monitor_bot.py:426-478 | After the file loop, `my_records` is sound and its keys are exactly the health log files, unreadable ones included. |
| Health.ReportFileEmpty | src/telegram_bot/systems_monitor_bot.py:489-491 | A file's report is empty exactly when it has no readings. |
| Health.ReportEmpty | src/telegram_bot/systems_monitor_bot.py:488-491 | The report is empty exactly when no file has a reading. |
| Health.CheckHealthSpec | src/telegram_bot/systems_monitor_bot.py:406-491 | With no health log file, nothing is checked. Otherwise the alert ends with the report of a sound `my_records` whose keys are exactly the health log files. The report is empty exactly when `my_records` holds no reading; `CheckHealthReadings` ties the readings to the files' records. |
| Health.LastHitNone | src/telegram_bot/systems_monitor_bot.py:451-467 | A file leaves no reading for a threshold exactly when none of its records is a hit: a record not older than the cursor whose value for the name exceeds the threshold. |
| Health.LastHitSome | src/telegram_bot/systems_monitor_bot.py:451-467 | The reading a file leaves for a threshold is the hit of some record after which no record, in file order, is a hit. |
| Health.ThresholdStepView | src/telegram_bot/systems_monitor_bot.py:462-469 | One threshold check records the record's time and value under the name exactly when the value exceeds, and changes no other reading of any file. |
| Health.CheckThresholdsView | src/telegram_bot/systems_monitor_bot.py:462-469 | The threshold loop, with distinct threshold names, gives each name the record's reading when its value exceeds and otherwise keeps the name's reading. No other name and no other file changes. |
| Health.RecordStepView | src/telegram_bot/systems_monitor_bot.py:451-469 | One record gives each threshold's name the record's hit, when it has one; a record older than the cursor changes nothing. No other file changes. |
| Health.ScanRecordsView | src/telegram_bot/systems_monitor_bot.py:451-469 | After the record loop, each threshold's name holds the file's last hit, or its earlier reading when no record is a hit. No other file changes. |
| Health.FileContentView | src/telegram_bot/systems_monitor_bot.py:436-469 | Reading a file whose entry is still empty leaves exactly its hits. A gone, empty or undecodable file leaves none. |
| Health.EnterFileView | src/telegram_bot/systems_monitor_bot.py:435-469 | After `my_records[file_name] = dict()` and the file's contents, the file's readings are exactly its hits, and every other file's are unchanged. |
| Health.FileStepView | src/telegram_bot/systems_monitor_bot.py:427-469 | The same for one iteration of the file loop. |
| Health.ScanFilesView | src/telegram_bot/systems_monitor_bot.py:426-478 | After the file loop over distinctly named files, each file's reading for each threshold is exactly its last hit. |
| Health.ReadingProvenance | src/telegram_bot/systems_monitor_bot.py:462-467 | Every reading in `my_records` is the last hit of a listed file for a threshold of that name. |
| Health.FileReportHasLine | src/telegram_bot/systems_monitor_bot.py:489-491 | Every reading of a file has its `exceeds threshold` line in the file's report. |
| Health.ReportHasLine | src/telegram_bot/systems_monitor_bot.py:488-491 | Every reading of every file has its line in the report. |
| Health.ViewReported | src/telegram_bot/systems_monitor_bot.py:488-491 | A reading `my_records` holds for a file and a name has its line in the report. |
| Health.HitsReported | src/telegram_bot/systems_monitor_bot.py:488-491 | Every file's hit for every threshold has its line in the report. |
| Health.ReportEmptyNoHits | src/telegram_bot/systems_monitor_bot.py:488-491 | The report is empty exactly when no file has a hit for any threshold. |
| Health.CheckHealthReadings | src/telegram_bot/systems_monitor_bot.py:406-491 | For a listing of distinct names and distinct threshold names: every health log file's reading for every threshold is exactly its last hit, and that hit's line is in the alert text. Every reading is such a hit. The report adds nothing exactly when no file has a hit. |
| Health.DiskUsageExample | src/telegram_bot/systems_monitor_bot.py:462-467 | A record with `disk_usage` 97, not older than the cursor, is a hit for the 95 threshold; one with 80 is not. |
| Health.CheckThresholdValues | src/telegram_bot/systems_monitor_bot.py:462-469 | The threshold loop computes `CheckThresholds`. |
| Health.ThresholdsStop | src/telegram_bot/systems_monitor_bot.py:463-464 | When the threshold loop stops, the whole loop fails as it did there. |
| Health.ScanHealthRecords | src/telegram_bot/systems_monitor_bot.py:451-469 | The record loop computes `ScanRecords`. |
| Health.RecordsStop | src/telegram_bot/systems_monitor_bot.py:453-464 | When the record loop stops, the whole loop fails as it did there. |
| Health.CheckHealthFile | src/telegram_bot/systems_monitor_bot.py:427-478 | One file iteration computes `FileStep`: a file that is gone adds an `Error with` line naming its joined path, one that is not JSON adds one with the decoder's message, one whose top level is not an object fails the check. |
| Health.CheckHealthFiles | src/telegram_bot/systems_monitor_bot.py:426-478 | The file loop computes `ScanFiles`. |
| Health.FilesStop | src/telegram_bot/systems_monitor_bot.py:472-476 | When the file loop stops, the whole loop fails as it did there. |
| Health.NonObjectAborts | src/telegram_bot/systems_monitor_bot.py:437-451 | A health log whose JSON top level is not an object makes the whole file loop fail, with `NotAMapping` unless an earlier file already failed. |
| Health.AppendFileReport | src/telegram_bot/systems_monitor_bot.py:489-491 | The inner report loop appends `ReportFile` to the text. |
| Health.AppendReport | src/telegram_bot/systems_monitor_bot.py:488-491 | The report loops append `Report` to the alert. |
| Daily.ChunksSpec | src/telegram_bot/systems_monitor_bot.py:690-696 | The pieces of an alert are non-empty, at most 4000 characters each, and concatenate to the alert. |
| Daily.ChunksMatchFullSize | src/telegram_bot/systems_monitor_bot.py:691-693 | Testing `> 400` but cutting 4000 sends the same pieces as testing `> 4000`. |
| Daily.ChunkAlert | src/telegram_bot/systems_monitor_bot.py:690-696 | The `while len(alert) > 0` loop computes `Chunks`. |
| Daily.CustomText | src/telegram_bot/systems_monitor_bot.py:710-712 | The custom heartbeat text is never blank, so it is always sent when due. |
| Daily.FinishedNotBlank | src/telegram_bot/systems_monitor_bot.py:706-707 | The "Daily Checks Finished" text is not blank. |
| Jobs.StopWithoutCommand | src/telegram_bot/systems_monitor_bot.py:762-780 | A message without "/stop" (a /sleep command, for instance) stops every job. |
| Jobs.TokenForm | src/telegram_bot/systems_monitor_bot.py:803-808 | A token `name=count` with one `=` adds the unit's seconds times the count. A count that is not all digits counts as 0. |
| Jobs.UnknownUnit | src/telegram_bot/systems_monitor_bot.py:808 | A token naming an unknown unit adds 0. |
| Jobs.TwoEquals | src/telegram_bot/systems_monitor_bot.py:806 | A token with two `=` raises `ValueError`. |
| Jobs.SleepTotalAppend | src/telegram_bot/systems_monitor_bot.py:802-808 | The total over two runs of tokens is the sum of their totals. |
| Jobs.SleepTotalLast | src/telegram_bot/systems_monitor_bot.py:803-808 | The total succeeds iff the total without the last token and the last token's own do, and it is their sum. |
| Jobs.SleepExample | src/telegram_bot/systems_monitor_bot.py:786-808 | The tokens "d=1 h=2" add up to 93600 seconds. |
| Jobs.TokenExample | src/telegram_bot/systems_monitor_bot.py:791-808 | A one-digit count of a known unit adds the unit's seconds times the digit. |
| Jobs.SleepArgs | src/telegram_bot/systems_monitor_bot.py:787-789 | `text.split("/sleep")[1]` raises exactly when the text has no "/sleep". |
| Jobs.SleepSeconds | src/telegram_bot/systems_monitor_bot.py:787-811 | A successful sleep duration is never 0: a zero total becomes a day. |
| Jobs.AddUpTokens | src/telegram_bot/systems_monitor_bot.py:802-808 | The token loop computes `SleepTotal`. |
| Jobs.TokensStop | src/telegram_bot/systems_monitor_bot.py:806 | When the token loop stops at a malformed token, the whole total fails there. |
| Jobs.ParseSleep | src/telegram_bot/systems_monitor_bot.py:787-811 | The parsing half of `sleep_time` computes `SleepSeconds`. |
| Jobs.Scheduler.constructor | src/telegram_bot/systems_monitor_bot.py:738-741 | All four jobs start enabled, with no pending wake-up. |
| Jobs.Scheduler.StopLogs | src/telegram_bot/systems_monitor_bot.py:760-782 | The flags become `AfterStop` of the scope read from the message. "non-daily" turns off health and up checks only, "up_check" turns off up checks only, and anything else turns off all four. One reply is sent. |
| Jobs.Scheduler.Stop | src/telegram_bot/systems_monitor_bot.py:768-782 | The switching and the reply for a decided scope. |
| Jobs.Scheduler.StartJobs | src/telegram_bot/systems_monitor_bot.py:752-758 | All four jobs on, and the daily job run once. |
| Jobs.Scheduler.StartLogs | src/telegram_bot/systems_monitor_bot.py:746-750 | The reply "Starting logs.", then all four jobs on. |
| Jobs.Scheduler.Wake | src/telegram_bot/systems_monitor_bot.py:821 | The pending wake-up is used up and starts all four jobs. |
| Jobs.Scheduler.SleepTime | src/telegram_bot/systems_monitor_bot.py:784-824 | The result is `SleepSeconds` of the text. On failure nothing changes. On success the jobs stop as `/stop` would for the same text, the single wake-up is set to that many seconds, and two replies are sent. |
| Jobs.Scheduler.Sleep | src/telegram_bot/systems_monitor_bot.py:813-824 | Stop as scoped, replace the wake-up, reply with the duration. |
| Monitor.ChunkMessagesSpec | src/telegram_bot/systems_monitor_bot.py:697 | Each piece becomes one alarm-chat message carrying it, in order. |
| Monitor.DailyAlarmsBounded | src/telegram_bot/systems_monitor_bot.py:686-701 | Every message of the alert loop goes to the alarm chat, is non-empty and is at most 4000 characters. |
| Monitor.DailyAlarmsComplete | src/telegram_bot/systems_monitor_bot.py:686-701 | The texts sent by the alert loop, joined, are the alerts joined. |
| Monitor.Monitor.constructor | src/telegram_bot/systems_monitor_bot.py:84-90 | Both cursors start at 0, and the heartbeat table starts with every configured kind at the start time. |
| Monitor.Monitor.CheckGeneralLogs | src/telegram_bot/systems_monitor_bot.py:297-325 | With no general log file, it returns the notice and changes nothing. A failing scan changes nothing. Otherwise the cursor becomes the aggregate cursor and never moves back, and the texts go through the "general_logs" gate. The health cursor is untouched. |
| Monitor.Monitor.CheckSystemHealth | src/telegram_bot/systems_monitor_bot.py:406-494 | With no health log file, it returns the notice. A failing scan (a non-object health log among them) sends nothing. Otherwise the heartbeat lines and the alert go through the "server_health_logs" gate. The cursor is not moved. |
| Monitor.Monitor.Reset | src/telegram_bot/systems_monitor_bot.py:558-563 | The health cursor becomes 0, the general cursor is unchanged, and the reply is sent. |
| Monitor.Monitor.MoveToEnd | src/telegram_bot/systems_monitor_bot.py:566-573 | The health cursor becomes now, the general cursor is unchanged, and the reply is sent. |
| Monitor.Monitor.DailyChecks | src/telegram_bot/systems_monitor_bot.py:679-713 | All alert pieces are sent. Then a missing "daily_checks" entry raises. When due, both heartbeat texts are sent and the entry becomes now. Otherwise the table is unchanged. |
| Monitor.Monitor.SendAlerts | src/telegram_bot/systems_monitor_bot.py:686-701 | The alert loop appends `DailyAlarms` of the alerts to the outbox. |
| Monitor.Monitor.SendAlert | src/telegram_bot/systems_monitor_bot.py:688-701 | One alert's pieces, in order, to the alarm chat. |
| Monitor.Monitor.SendChunks | src/telegram_bot/systems_monitor_bot.py:697-701 | Each piece is sent to the alarm chat in order. |

## Left out

- Telegram I/O is not modelled. A send is an append to a ghost outbox, and a failed send in `print_to_heartbeat_chat` (its `except` branch) is not modelled.
- Jobs.StopArgs: an edited `/stop` message reaches `stop` with `update.message` set to None, and reading `.text` from it raises AttributeError. That failure is not modelled; `None` stands for an update without a `message` attribute.
- `admins_only` is left out: the admin lookup is a network call. Commands are modelled as if sent by an admin.
- `server_up_checks` (HTTP fetches), `main()` job registration and the `seconds_until_daily` arithmetic are library scheduling, and are left out.
- `run_jobs`, `get_jobs`, `help_message`, `what_is_tracked` and `delete_bot_messages` only send text or call the job queue, and are left out. So are the ids collected in `messages_created`, and the 3-second sleep between pieces.
- `push_logs_for_bot.py`, the `health_check.py` scripts and `general_logger.py` are not part of this model.
- The daily module itself is a parameter. `Monitor.Monitor.DailyChecks` takes the alerts and heartbeat lines it returned.
- JSON text encoding and decoding, `float()`, the range of `datetime.fromtimestamp`, the ISO parsers, `isoformat` and `str()` of values and times are abstract functions of `Formats.Codec`. Time zones and float rounding of times are not modelled. Finite times are integer microseconds, not float seconds.
- Health.ScanFiles: one clock reading serves the whole file loop. `check_system_health` reads `time.time()` again for every file (src/telegram_bot/systems_monitor_bot.py line 430), so a later file's staleness is measured against a slightly later clock.
- Health.Stale: the hour count is modelled as exact whole hours printed as "N.0". The float formatting of large or fractional ages is not modelled.
- Text.IsDigits: models `isdigit()` for ASCII digits only. Other Unicode digits are not recognised.
- GeneralLogs.ScanFile: a listed general log that is gone when opened is read as `{}`. The empty file that `check_log_file` then writes to disk (src/telegram_bot/utilities.py lines 52-54) is not modelled, because the directory listing is a value here.
- Health.FileContent: a file listed but gone by the time it is opened is an absent entry. Its `Error with` line quotes the joined path in single quotes, as `repr` shows a path without quotes, backslashes or unprintable characters; the escaping `repr` applies to other paths is not modelled. A file already gone at the `getmtime` call, which raises uncaught, is not modelled, because a listed entry always carries its modification time here.
- The job queue's `schedule_removal` and `run_once` are modelled by the single pending wake-up field `Jobs.Scheduler.wake`.
- LogStore.LogFile: the stored object is an ordered list of pairs viewed as a mapping (`Dicts.ToMap`), not a bare map, because the record order decides the alert text.
