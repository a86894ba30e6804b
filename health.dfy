/**
 * The system-health scan of check_system_health: per health log file a staleness check on
 * its modification time, a threshold check on every record not older than the health
 * cursor, and a heartbeat line with the newest record's values; then one report line per
 * reading found above its threshold.
 */
module Health {
  import opened Results
  import opened Text
  import opened Dicts
  import opened Json
  import opened Formats
  import opened LogStore
  import opened GeneralLogs

  const HourMicros: int := 3_600_000_000

  /** The part of a file name that marks it as a health log. */
  const HealthKey: string := "health_logs"

  /** value_threshold_dict: field name and the value it must not exceed. */
  const Thresholds: seq<(string, nat)> := [("disk_usage", 95)]

  /** The message of the error raised when a listed file is gone by the time it is opened. */
  const NoSuchFile: string := "[Errno 2] No such file or directory"

  /**
   * The alert line for a listed file that is gone when opened: `str()` of the
   * FileNotFoundError names the joined path in quotes.
   */
  function GoneLine(f: DirEntry): string
  {
    "Error with " + f.name + ": " + NoSuchFile + ": '" + JoinPath(f.dir, f.name) + "'\n"
  }

  /** The staleness line for a file last modified `age` microseconds ago: whole hours, printed as a float. */
  function Stale(name: string, age: int): (line: string)
    ensures line != "" <==> age > HourMicros
  {
    if age > HourMicros then StaleLine(name, age / HourMicros) else ""
  }

  /** The staleness line itself, for a number of whole hours. */
  function StaleLine(name: string, hours: nat): (line: string)
    ensures line != ""
  {
    name + " has not been updated in " + NatToString(hours) + ".0 hours.\n"
  }

  /** Python's `name in data` for a decoded value: keys of an object, items of a list, substrings. */
  function Has(data: Json, name: string): (r: Result<bool>)
    ensures r.Err? <==> !(data.JObj? || data.JArr? || data.JStr?)
    ensures data.JObj? ==> r == Ok(name in Keys(data.fields))
  {
    match data
    case JObj(fields) => Ok(name in Keys(fields))
    case JArr(items) => Ok(JStr(name) in items)
    case JStr(s) => Ok(Contains(s, name))
    case _ => Err(NotAMapping)
  }

  /** Python's `data[name]`: only an object can be indexed by a name; a missing name is a KeyError. */
  function Lookup(data: Json, name: string): (r: Result<Json>)
    ensures r.Ok? <==> data.JObj? && name in ToMap(data.fields)
    ensures r.Ok? ==> r.value == ToMap(data.fields)[name]
    ensures data.JObj? && r.Err? ==> r.fault == MissingKey(name)
  {
    ToMapKey(if data.JObj? then data.fields else [], name);
    match data
    case JObj(fields) => if name in ToMap(fields) then Ok(ToMap(fields)[name]) else Err(MissingKey(name))
    case _ => Err(NotAMapping)
  }

  /** Python's `value > threshold`: numbers and booleans compare, anything else is a TypeError. */
  function Exceeds(v: Json, threshold: int): (r: Result<bool>)
    ensures r.Err? <==> !(v.JInt? || v.JFloat? || v.JNaN? || v.JInfinity? || v.JBool?)
    ensures v.JInt? ==> r == Ok(v.i > threshold)
    ensures v.JNaN? ==> r == Ok(false)
    ensures v.JInfinity? ==> r == Ok(!v.negative)
  {
    match v
    case JInt(i) => Ok(i > threshold)
    case JFloat(f) => Ok(f > threshold as real)
    case JNaN => Ok(false)
    case JInfinity(negative) => Ok(!negative)
    case JBool(b) => Ok((if b then 1 else 0) > threshold)
    case _ => Err(NotComparable)
  }

  /** A reading found above its threshold: the record's time and the value. */
  type Reading = (int, Json)

  /** my_records[file_name]: field name to the reading that exceeded. */
  type FileRecords = seq<(string, Reading)>

  /** my_records: file name to its readings, in the order the files were visited. */
  type Records = seq<(string, FileRecords)>

  datatype HealthState = HealthState(alert: string, records: Records)

  /** The readings recorded so far for one file (none when the file has no entry). */
  function RecordsOf(records: Records, name: string): FileRecords
  {
    if name in ToMap(records) then ToMap(records)[name] else []
  }

  /** The threshold check of one field of one record (the body of the inner loop at lines 462-469). */
  function ThresholdStep(st: HealthState, fileName: string, t: int, data: Json, th: (string, nat)): Result<HealthState>
  {
    var name := th.0;
    var has :- Has(data, name);
    if !has then Ok(HealthState(fileName + ": " + name + " not found.\n", st.records))
    else
      var v :- Lookup(data, name);
      var exceeds :- Exceeds(v, th.1);
      if !exceeds then Ok(st)
      else if name in Keys(st.records) then Err(MissingKey("0"))
      else Ok(HealthState(st.alert, Put(st.records, fileName, Put(RecordsOf(st.records, fileName), name, (t, v)))))
  }

  /** The inner loop over all thresholds for one record. */
  function CheckThresholds(st: HealthState, fileName: string, t: int, data: Json, ths: seq<(string, nat)>): Result<HealthState>
  {
    if ths == [] then Ok(st)
    else
      var prev :- CheckThresholds(st, fileName, t, data, ths[..|ths| - 1]);
      ThresholdStep(prev, fileName, t, data, ths[|ths| - 1])
  }

  /** The state of the record loop: the scan state and the file's entries re-keyed by time. */
  datatype Pass = Pass(state: HealthState, converted: seq<(int, Json)>)

  /** One record: parse its key, move it under its time, check it unless it is older than the cursor. */
  function RecordStep(c: Codec, p: Pass, fileName: string, e: (string, Json), cursor: int, ths: seq<(string, nat)>): Result<Pass>
  {
    match StrToDatetime(c, e.0)
    case None => Err(BadTimestamp(e.0))
    case Some(t) =>
      var converted := Put(p.converted, t, e.1);
      if t < cursor then Ok(Pass(p.state, converted))
      else
        var st :- CheckThresholds(p.state, fileName, t, e.1, ths);
        Ok(Pass(st, converted))
  }

  /** The record loop of one file, in file order. */
  function ScanRecords(c: Codec, init: Pass, fileName: string, d: Entries, cursor: int, ths: seq<(string, nat)>): Result<Pass>
  {
    if d == [] then Ok(init)
    else
      var prev :- ScanRecords(c, init, fileName, d[..|d| - 1], cursor, ths);
      RecordStep(c, prev, fileName, d[|d| - 1], cursor, ths)
  }

  /** The position of the entry with the greatest time (the first of them). */
  function Newest(conv: seq<(int, Json)>): (i: nat)
    requires |conv| > 0
    ensures i < |conv| && forall j :: 0 <= j < |conv| ==> conv[j].0 <= conv[i].0
  {
    if |conv| == 1 then 0
    else
      var i := Newest(conv[..|conv| - 1]);
      if conv[|conv| - 1].0 > conv[i].0 then |conv| - 1 else i
  }

  /** `sorted(..., reverse=True)[0]`: the newest record, an IndexError for an empty file. */
  function Latest(conv: seq<(int, Json)>): (r: Result<Json>)
    ensures r.Err? <==> conv == []
    ensures r.Ok? ==> exists i :: 0 <= i < |conv| && conv[i].1 == r.value
                        && forall j :: 0 <= j < |conv| ==> conv[j].0 <= conv[i].0
  {
    if conv == [] then Err(EmptyLog) else Ok(conv[Newest(conv)].1)
  }

  /**
   * The `name: value` parts of the heartbeat line, one per threshold name, in threshold
   * order; the first name the record lacks (or a record that is not an object) fails.
   */
  function LatestLines(c: Codec, v: Json, ths: seq<(string, nat)>): (r: Result<seq<string>>)
    ensures r.Ok? ==> |r.value| == |ths|
  {
    if ths == [] then Ok([])
    else
      var prev :- LatestLines(c, v, ths[..|ths| - 1]);
      var x :- Lookup(v, ths[|ths| - 1].0);
      Ok(prev + [ths[|ths| - 1].0 + ": " + c.showValue(x)])
  }

  /** The heartbeat parts are produced exactly when the record has every threshold name. */
  lemma {:induction false} LatestLinesOk(c: Codec, v: Json, ths: seq<(string, nat)>)
    ensures LatestLines(c, v, ths).Ok? <==> forall i :: 0 <= i < |ths| ==> Lookup(v, ths[i].0).Ok?
  {
    if ths != [] {
      var n := |ths| - 1;
      var p := ths[..n];
      LatestLinesOk(c, v, p);
      LatestLinesStep(c, v, ths);
      assert forall j :: 0 <= j < n ==> ths[j] == p[j];
    }
  }

  /** Part i is `name: value` for the i-th threshold name and that name's value in the record. */
  lemma {:induction false} LatestLinesParts(c: Codec, v: Json, ths: seq<(string, nat)>)
    requires LatestLines(c, v, ths).Ok?
    ensures forall i :: 0 <= i < |ths| ==>
              Lookup(v, ths[i].0).Ok?
              && LatestLines(c, v, ths).value[i] == ths[i].0 + ": " + c.showValue(Lookup(v, ths[i].0).value)
  {
    if ths != [] {
      var n := |ths| - 1;
      var p := ths[..n];
      LatestLinesStep(c, v, ths);
      LatestLinesParts(c, v, p);
      var q := LatestLines(c, v, p).value;
      var r := LatestLines(c, v, ths).value;
      forall i | 0 <= i < |ths|
        ensures Lookup(v, ths[i].0).Ok?
        ensures r[i] == ths[i].0 + ": " + c.showValue(Lookup(v, ths[i].0).value)
      {
        if i < n {
          assert r[i] == q[i] && ths[i] == p[i];
        }
      }
    }
  }

  /** Threshold name i is the first one whose lookup in the record fails, with fault `f`. */
  predicate FirstMissing(v: Json, ths: seq<(string, nat)>, i: int, f: Fault)
  {
    0 <= i < |ths| && Lookup(v, ths[i].0) == Err(f) && forall j :: 0 <= j < i ==> Lookup(v, ths[j].0).Ok?
  }

  /** The first missing name of a prefix is the first missing name of the whole list. */
  lemma FirstMissingExtends(v: Json, ths: seq<(string, nat)>, k: nat, i: int, f: Fault)
    requires k <= |ths| && FirstMissing(v, ths[..k], i, f)
    ensures FirstMissing(v, ths, i, f)
  {
    assert forall j :: 0 <= j <= i ==> ths[..k][j] == ths[j];
  }

  /** A failure is the fault of the first threshold name the record does not provide. */
  lemma {:induction false} LatestLinesFault(c: Codec, v: Json, ths: seq<(string, nat)>)
    requires LatestLines(c, v, ths).Err?
    ensures exists i :: FirstMissing(v, ths, i, LatestLines(c, v, ths).fault)
  {
    var n := |ths| - 1;
    var p := ths[..n];
    var f := LatestLines(c, v, ths).fault;
    LatestLinesStep(c, v, ths);
    if LatestLines(c, v, p).Err? {
      LatestLinesFault(c, v, p);
      var i :| FirstMissing(v, p, i, f);
      FirstMissingExtends(v, ths, n, i, f);
    } else {
      LatestLinesOk(c, v, p);
      forall j | 0 <= j < n ensures Lookup(v, ths[j].0).Ok? {
        assert ths[j] == p[j];
      }
      assert FirstMissing(v, ths, n, f);
    }
  }

  /** The last threshold name: its line follows the others, or its lookup's fault is the result. */
  lemma LatestLinesStep(c: Codec, v: Json, ths: seq<(string, nat)>)
    requires ths != []
    ensures var p := LatestLines(c, v, ths[..|ths| - 1]);
      var name := ths[|ths| - 1].0;
      LatestLines(c, v, ths) ==
        if p.Err? then Err(p.fault)
        else if Lookup(v, name).Err? then Err(Lookup(v, name).fault)
        else Ok(p.value + [name + ": " + c.showValue(Lookup(v, name).value)])
  {
  }

  /** What the file loop carries: the alert text, my_records and the heartbeat text. */
  datatype HealthAcc = HealthAcc(alert: string, records: Records, heartbeat: string)

  /** A file that decoded: scan its records, then add the newest record's values to the heartbeat. */
  function FileBody(c: Codec, alert: string, records: Records, heartbeat: string, name: string, d: Entries,
                    cursor: int, ths: seq<(string, nat)>): Result<HealthAcc>
  {
    var p :- ScanRecords(c, Pass(HealthState(alert, records), []), name, d, cursor, ths);
    var latest :- Latest(p.converted);
    var lines :- LatestLines(c, latest, ths);
    Ok(HealthAcc(p.state.alert, p.state.records,
                 heartbeat + ServerLabel(name) + " ==>\n    " + Join("\n    ", lines) + "\n"))
  }

  /** One health log file (the body of the loop at lines 427-478): staleness, an empty entry, then its contents. */
  function FileStep(c: Codec, acc: HealthAcc, f: DirEntry, now: int, cursor: int, ths: seq<(string, nat)>): Result<HealthAcc>
  {
    EnterFile(c, acc, f, Stale(f.name, now - f.mtime), cursor, ths)
  }

  /** One health log file given its staleness line: that line, an empty entry, then its contents. */
  function EnterFile(c: Codec, acc: HealthAcc, f: DirEntry, stale: string, cursor: int, ths: seq<(string, nat)>): Result<HealthAcc>
  {
    FileContent(c, acc.alert + stale, Put(acc.records, f.name, []), acc.heartbeat, f, cursor, ths)
  }

  /**
   * Reading one file: a file that is gone or does not decode adds an error line; one whose
   * top level is not an object fails at `.items()`; an object is scanned.
   */
  function FileContent(c: Codec, alert: string, records: Records, heartbeat: string, f: DirEntry,
                       cursor: int, ths: seq<(string, nat)>): Result<HealthAcc>
  {
    match f.content
    case Absent => Ok(HealthAcc(alert + GoneLine(f), records, heartbeat))
    case Malformed(reason) => Ok(HealthAcc(alert + "Error with " + f.name + ": " + reason + "\n", records, heartbeat))
    case NotObject => Err(NotAMapping)
    case Blank => FileBody(c, alert, records, heartbeat, f.name, [], cursor, ths)
    case Doc(d) => FileBody(c, alert, records, heartbeat, f.name, d, cursor, ths)
  }

  /** The loop over the health log files. */
  function ScanFiles(c: Codec, files: seq<DirEntry>, now: int, cursor: int, ths: seq<(string, nat)>): Result<HealthAcc>
  {
    if files == [] then Ok(HealthAcc("", [], ""))
    else
      var prev :- ScanFiles(c, files[..|files| - 1], now, cursor, ths);
      FileStep(c, prev, files[|files| - 1], now, cursor, ths)
  }

  /** `value_threshold_dict[name]` as printed. */
  function ThresholdText(ths: seq<(string, nat)>, name: string): string
  {
    if name in ToMap(ths) then NatToString(ToMap(ths)[name]) else ""
  }

  /** One report line. */
  function ReportLine(c: Codec, fileName: string, r: (string, Reading), ths: seq<(string, nat)>): string
  {
    ServerLabel(fileName) + " ==>  " + r.0 + " (" + c.showValue(r.1.1) + ") exceeds threshold ("
      + ThresholdText(ths, r.0) + ")\n"
  }

  /** The report lines of one file's readings. */
  function ReportFile(c: Codec, fileName: string, recs: FileRecords, ths: seq<(string, nat)>): string
  {
    if recs == [] then ""
    else ReportFile(c, fileName, recs[..|recs| - 1], ths) + ReportLine(c, fileName, recs[|recs| - 1], ths)
  }

  /** The report loop at lines 488-491. */
  function Report(c: Codec, records: Records, ths: seq<(string, nat)>): string
  {
    if records == [] then ""
    else Report(c, records[..|records| - 1], ths) + ReportFile(c, records[|records| - 1].0, records[|records| - 1].1, ths)
  }

  /** A file's report is empty exactly when it has no readings. */
  lemma ReportFileEmpty(c: Codec, fileName: string, recs: FileRecords, ths: seq<(string, nat)>)
    ensures ReportFile(c, fileName, recs, ths) == "" <==> recs == []
  {
    if recs != [] {
      var line := ReportLine(c, fileName, recs[|recs| - 1], ths);
      assert |ReportFile(c, fileName, recs, ths)| >= |line| > 0;
    }
  }

  /** The report is empty exactly when no file has a reading above its threshold. */
  lemma {:induction false} ReportEmpty(c: Codec, records: Records, ths: seq<(string, nat)>)
    ensures Report(c, records, ths) == "" <==> forall e :: e in records ==> e.1 == []
  {
    if records != [] {
      var p := records[..|records| - 1];
      var e := records[|records| - 1];
      ReportEmpty(c, p, ths);
      ReportFileEmpty(c, e.0, e.1, ths);
      assert Report(c, records, ths) == Report(c, p, ths) + ReportFile(c, e.0, e.1, ths);
      if forall x :: x in p ==> x.1 == [] {
        if e.1 == [] {
          forall x | x in records ensures x.1 == [] {
            if x != e {
              var j :| 0 <= j < |records| && records[j] == x;
              assert x in p by { assert p[j] == x; }
            }
          }
        }
      } else {
        var x :| x in p && x.1 != [];
        assert x in records;
      }
    }
  }

  /** What a health check produces before the heartbeat gate. */
  datatype HealthOutcome =
    | NoHealthLogs                               // returns "no health_logs logs found\n", sends nothing
    | Checked(heartbeat: string, alert: string)  // handed to the gate under "server_health_logs"

  /** check_system_health up to the call of the gate. */
  function CheckHealth(c: Codec, dir: seq<DirEntry>, now: int, cursor: int, ths: seq<(string, nat)>): Result<HealthOutcome>
  {
    var files := FilesWithKey(dir, HealthKey);
    if files == [] then Ok(NoHealthLogs)
    else
      var acc :- ScanFiles(c, files, now, cursor, ths);
      Ok(Checked(acc.heartbeat, acc.alert + Report(c, acc.records, ths)))
  }

  /** A recorded reading came from a record not older than the cursor and exceeds a threshold of its name. */
  predicate ReadingOk(r: (string, Reading), cursor: int, ths: seq<(string, nat)>)
  {
    r.1.0 >= cursor && exists th :: th in ths && th.0 == r.0 && Exceeds(r.1.1, th.1) == Ok(true)
  }

  /** One entry of my_records: a health log file, its readings keyed without repetition, each of them sound. */
  predicate FileSound(e: (string, FileRecords), cursor: int, ths: seq<(string, nat)>)
  {
    Contains(e.0, HealthKey) && Distinct(e.1) && forall r :: r in e.1 ==> ReadingOk(r, cursor, ths)
  }

  /** my_records is a dict of health log files holding only readings that really exceed. */
  predicate Sound(records: Records, cursor: int, ths: seq<(string, nat)>)
  {
    Distinct(records) && forall e :: e in records ==> FileSound(e, cursor, ths)
  }

  /** No threshold name is itself the name of a health log file. */
  predicate NamesClean(ths: seq<(string, nat)>)
  {
    forall th :: th in ths ==> !Contains(th.0, HealthKey)
  }

  lemma ThresholdsClean()
    ensures NamesClean(Thresholds)
  {
    forall th | th in Thresholds ensures !Contains(th.0, HealthKey) {
      if Contains(th.0, HealthKey) {
        ContainsLength(th.0, HealthKey);
      }
    }
  }

  /**
   * The guard `name not in my_records` always holds: my_records is keyed by health log file
   * names, and no threshold name contains "health_logs". So the branch that reads
   * `my_records[name][0]`, which would raise, is never taken.
   */
  lemma GuardAlwaysHolds(records: Records, cursor: int, ths: seq<(string, nat)>, th: (string, nat))
    requires Sound(records, cursor, ths) && NamesClean(ths) && th in ths
    ensures th.0 !in Keys(records)
  {
    forall i | 0 <= i < |records| ensures Keys(records)[i] != th.0 {
      assert records[i] in records;
    }
  }

  /**
   * One threshold check on a sound state: it fails only when the record cannot be asked for
   * the field or the field cannot be compared. A missing field overwrites the whole alert
   * text with its "not found" line; an exceeding value is recorded under the file and field
   * name with the record's time; anything else leaves the state as it was.
   */
  lemma ThresholdStepSpec(st: HealthState, fileName: string, t: int, data: Json, th: (string, nat),
                          cursor: int, ths: seq<(string, nat)>)
    requires Sound(st.records, cursor, ths) && NamesClean(ths) && th in ths
    ensures var r := ThresholdStep(st, fileName, t, data, th);
      (r.Ok? <==> Has(data, th.0).Ok?
                  && (Has(data, th.0) == Ok(true) ==>
                        Lookup(data, th.0).Ok? && Exceeds(Lookup(data, th.0).value, th.1).Ok?))
      && (Has(data, th.0) == Ok(false) ==> r == Ok(HealthState(fileName + ": " + th.0 + " not found.\n", st.records)))
      && (r.Ok? && Has(data, th.0) == Ok(true) ==>
            var v := Lookup(data, th.0).value;
            (Exceeds(v, th.1) == Ok(false) ==> r.value == st)
            && (Exceeds(v, th.1) == Ok(true) ==>
                  r.value.alert == st.alert
                  && fileName in ToMap(r.value.records) && th.0 in ToMap(RecordsOf(r.value.records, fileName))
                  && ToMap(RecordsOf(r.value.records, fileName))[th.0] == (t, v)))
  {
    GuardAlwaysHolds(st.records, cursor, ths, th);
    if Has(data, th.0) == Ok(true) && Lookup(data, th.0).Ok? && Exceeds(Lookup(data, th.0).value, th.1) == Ok(true) {
      var v := Lookup(data, th.0).value;
      var inner := RecordsOf(st.records, fileName);
      InnerDistinct(st.records, fileName, cursor, ths);
      PutProperties(inner, th.0, (t, v));
      PutProperties(st.records, fileName, Put(inner, th.0, (t, v)));
    }
  }

  /** The readings of one file in a sound state are themselves a dict. */
  lemma InnerDistinct(records: Records, fileName: string, cursor: int, ths: seq<(string, nat)>)
    requires Sound(records, cursor, ths)
    ensures Distinct(RecordsOf(records, fileName))
    ensures fileName in ToMap(records) ==> FileSound((fileName, RecordsOf(records, fileName)), cursor, ths)
  {
    if fileName in ToMap(records) {
      ToMapValue(records, fileName);
    }
  }

  /**
   * A threshold check keeps my_records sound and keeps its keys: the file being scanned is
   * already a key, and readings are added only under it.
   */
  lemma ThresholdStepSound(st: HealthState, fileName: string, t: int, data: Json, th: (string, nat),
                           cursor: int, ths: seq<(string, nat)>)
    requires Sound(st.records, cursor, ths) && NamesClean(ths) && th in ths
    requires t >= cursor && fileName in Keys(st.records)
    requires ThresholdStep(st, fileName, t, data, th).Ok?
    ensures var r := ThresholdStep(st, fileName, t, data, th).value;
      Sound(r.records, cursor, ths) && Keys(r.records) == Keys(st.records)
  {
    GuardAlwaysHolds(st.records, cursor, ths, th);
    if Has(data, th.0) == Ok(true) && Exceeds(Lookup(data, th.0).value, th.1) == Ok(true) {
      var v := Lookup(data, th.0).value;
      var reading := (th.0, (t, v));
      assert ReadingOk(reading, cursor, ths);
      ToMapKey(st.records, fileName);
      InnerDistinct(st.records, fileName, cursor, ths);
      var inner := RecordsOf(st.records, fileName);
      var next := Put(inner, th.0, (t, v));
      PutProperties(inner, th.0, (t, v));
      PutElements(inner, th.0, (t, v));
      assert FileSound((fileName, next), cursor, ths);
      PutPresent(st.records, fileName, next);
      PutElements(st.records, fileName, next);
    }
  }

  /** The inner loop over the thresholds keeps my_records sound and its keys unchanged. */
  lemma {:induction false} CheckThresholdsSound(st: HealthState, fileName: string, t: int, data: Json,
                                                part: seq<(string, nat)>, cursor: int, ths: seq<(string, nat)>)
    requires Sound(st.records, cursor, ths) && NamesClean(ths) && forall th :: th in part ==> th in ths
    requires t >= cursor && fileName in Keys(st.records)
    requires CheckThresholds(st, fileName, t, data, part).Ok?
    ensures var r := CheckThresholds(st, fileName, t, data, part).value;
      Sound(r.records, cursor, ths) && Keys(r.records) == Keys(st.records)
  {
    if part != [] {
      var init := part[..|part| - 1];
      var th := part[|part| - 1];
      assert th in part;
      CheckThresholdsSound(st, fileName, t, data, init, cursor, ths);
      var prev := CheckThresholds(st, fileName, t, data, init).value;
      ThresholdStepSound(prev, fileName, t, data, th, cursor, ths);
    }
  }

  /** One record keeps my_records sound: a record older than the cursor is never checked. */
  lemma RecordStepSound(c: Codec, p: Pass, fileName: string, e: (string, Json), cursor: int, ths: seq<(string, nat)>)
    requires Sound(p.state.records, cursor, ths) && NamesClean(ths) && fileName in Keys(p.state.records)
    requires RecordStep(c, p, fileName, e, cursor, ths).Ok?
    ensures var r := RecordStep(c, p, fileName, e, cursor, ths).value;
      Sound(r.state.records, cursor, ths) && Keys(r.state.records) == Keys(p.state.records)
  {
    var t := StrToDatetime(c, e.0).value;
    if t >= cursor {
      CheckThresholdsSound(p.state, fileName, t, e.1, ths, cursor, ths);
    }
  }

  /** The record loop of one file keeps my_records sound and its keys unchanged. */
  lemma {:induction false} ScanRecordsSound(c: Codec, init: Pass, fileName: string, d: Entries, cursor: int,
                                            ths: seq<(string, nat)>)
    requires Sound(init.state.records, cursor, ths) && NamesClean(ths) && fileName in Keys(init.state.records)
    requires ScanRecords(c, init, fileName, d, cursor, ths).Ok?
    ensures var r := ScanRecords(c, init, fileName, d, cursor, ths).value;
      Sound(r.state.records, cursor, ths) && Keys(r.state.records) == Keys(init.state.records)
  {
    if d != [] {
      ScanRecordsSound(c, init, fileName, d[..|d| - 1], cursor, ths);
      var prev := ScanRecords(c, init, fileName, d[..|d| - 1], cursor, ths).value;
      RecordStepSound(c, prev, fileName, d[|d| - 1], cursor, ths);
    }
  }

  /** Entering a health log file into my_records with an empty dict keeps it sound. */
  lemma EnterSound(records: Records, name: string, cursor: int, ths: seq<(string, nat)>)
    requires Sound(records, cursor, ths) && Contains(name, HealthKey)
    ensures Sound(Put(records, name, []), cursor, ths)
    ensures Keys(Put(records, name, [])) == if name in Keys(records) then Keys(records) else Keys(records) + [name]
    ensures name in Keys(Put(records, name, []))
  {
    PutProperties(records, name, []);
    PutElements(records, name, []);
    assert FileSound((name, []), cursor, ths);
  }

  /** A file that decoded keeps my_records sound and its keys, the file itself being already a key. */
  lemma FileBodySound(c: Codec, alert: string, records: Records, heartbeat: string, name: string, d: Entries,
                      cursor: int, ths: seq<(string, nat)>)
    requires Sound(records, cursor, ths) && NamesClean(ths) && name in Keys(records)
    requires FileBody(c, alert, records, heartbeat, name, d, cursor, ths).Ok?
    ensures var r := FileBody(c, alert, records, heartbeat, name, d, cursor, ths).value;
      Sound(r.records, cursor, ths) && Keys(r.records) == Keys(records)
  {
    ScanRecordsSound(c, Pass(HealthState(alert, records), []), name, d, cursor, ths);
  }

  /** Reading one file keeps my_records sound and its keys, the file being already a key. */
  lemma FileContentSound(c: Codec, alert: string, records: Records, heartbeat: string, f: DirEntry,
                         cursor: int, ths: seq<(string, nat)>)
    requires Sound(records, cursor, ths) && NamesClean(ths) && f.name in Keys(records)
    requires FileContent(c, alert, records, heartbeat, f, cursor, ths).Ok?
    ensures var r := FileContent(c, alert, records, heartbeat, f, cursor, ths).value;
      Sound(r.records, cursor, ths) && Keys(r.records) == Keys(records)
  {
    if f.content.Doc? {
      FileBodySound(c, alert, records, heartbeat, f.name, f.content.entries, cursor, ths);
    }
  }

  /**
   * One file keeps my_records sound; afterwards its keys are the earlier keys with this
   * file's name set (to an empty dict first, then filled by the record loop).
   */
  lemma EnterFileSound(c: Codec, acc: HealthAcc, f: DirEntry, stale: string, cursor: int, ths: seq<(string, nat)>)
    requires Sound(acc.records, cursor, ths) && NamesClean(ths) && Contains(f.name, HealthKey)
    requires EnterFile(c, acc, f, stale, cursor, ths).Ok?
    ensures var r := EnterFile(c, acc, f, stale, cursor, ths).value;
      Sound(r.records, cursor, ths) && Keys(r.records) == Keys(Put(acc.records, f.name, []))
  {
    EnterSound(acc.records, f.name, cursor, ths);
    FileContentSound(c, acc.alert + stale, Put(acc.records, f.name, []), acc.heartbeat, f, cursor, ths);
  }

  /** The same for one file of the loop, its staleness line worked out from the clock. */
  lemma FileStepSound(c: Codec, acc: HealthAcc, f: DirEntry, now: int, cursor: int, ths: seq<(string, nat)>)
    requires Sound(acc.records, cursor, ths) && NamesClean(ths) && Contains(f.name, HealthKey)
    requires FileStep(c, acc, f, now, cursor, ths).Ok?
    ensures var r := FileStep(c, acc, f, now, cursor, ths).value;
      Sound(r.records, cursor, ths) && Keys(r.records) == Keys(Put(acc.records, f.name, []))
  {
    FileStepEnters(c, acc, f, now, cursor, ths);
    EnterFileSound(c, acc, f, Stale(f.name, now - f.mtime), cursor, ths);
  }

  /** One file of the loop is the file entered with the staleness line the clock gives. */
  lemma FileStepEnters(c: Codec, acc: HealthAcc, f: DirEntry, now: int, cursor: int, ths: seq<(string, nat)>)
    ensures FileStep(c, acc, f, now, cursor, ths) == EnterFile(c, acc, f, Stale(f.name, now - f.mtime), cursor, ths)
  {
  }

  /**
   * After the file loop, my_records is sound, and its keys are exactly the names of the
   * health log files, each present even when the file could not be read.
   */
  lemma {:induction false} ScanFilesSound(c: Codec, files: seq<DirEntry>, now: int, cursor: int, ths: seq<(string, nat)>)
    requires NamesClean(ths) && forall f :: f in files ==> Contains(f.name, HealthKey)
    requires ScanFiles(c, files, now, cursor, ths).Ok?
    ensures var r := ScanFiles(c, files, now, cursor, ths).value;
      Sound(r.records, cursor, ths)
      && (forall f :: f in files ==> f.name in Keys(r.records))
      && (forall k :: k in Keys(r.records) ==> exists f :: f in files && f.name == k)
  {
    if files != [] {
      var init := files[..|files| - 1];
      var f := files[|files| - 1];
      assert f in files;
      ScanFilesSound(c, init, now, cursor, ths);
      var prev := ScanFiles(c, init, now, cursor, ths).value;
      assert ScanFiles(c, files, now, cursor, ths) == FileStep(c, prev, f, now, cursor, ths);
      FileStepSound(c, prev, f, now, cursor, ths);
      EnterSound(prev.records, f.name, cursor, ths);
      var r := ScanFiles(c, files, now, cursor, ths).value;
      KeysStep(files, Keys(prev.records), Keys(r.records));
    }
  }

  /** Adding the last file's name to the keys keeps them exactly the names of the files seen so far. */
  lemma KeysStep(files: seq<DirEntry>, before: seq<string>, after: seq<string>)
    requires files != []
    requires forall g :: g in files[..|files| - 1] ==> g.name in before
    requires forall k :: k in before ==> exists g :: g in files[..|files| - 1] && g.name == k
    requires var f := files[|files| - 1]; after == if f.name in before then before else before + [f.name]
    ensures forall g :: g in files ==> g.name in after
    ensures forall k :: k in after ==> exists g :: g in files && g.name == k
  {
    var init := files[..|files| - 1];
    var f := files[|files| - 1];
    assert files == init + [f];
    forall k | k in after ensures exists g :: g in files && g.name == k {
      if k == f.name {
        assert f in files;
      } else {
        var g :| g in init && g.name == k;
        assert g in files;
      }
    }
  }

  /**
   * check_system_health up to the gate: nothing is checked when no file name contains
   * "health_logs"; otherwise the alert text ends with the threshold report of a sound
   * my_records whose keys are exactly the health log files, and that report is empty
   * exactly when my_records holds no reading (CheckHealthReadings says which readings).
   */
  lemma CheckHealthSpec(c: Codec, dir: seq<DirEntry>, now: int, cursor: int, ths: seq<(string, nat)>)
    requires NamesClean(ths) && CheckHealth(c, dir, now, cursor, ths).Ok?
    ensures var r := CheckHealth(c, dir, now, cursor, ths).value;
      var files := FilesWithKey(dir, HealthKey);
      (r == NoHealthLogs <==> forall f :: f in dir ==> !Contains(f.name, HealthKey))
      && (r.Checked? ==>
            var acc := ScanFiles(c, files, now, cursor, ths).value;
            r.alert == acc.alert + Report(c, acc.records, ths)
            && Sound(acc.records, cursor, ths)
            && (forall f :: f in files ==> f.name in Keys(acc.records))
            && (forall k :: k in Keys(acc.records) ==> exists f :: f in files && f.name == k)
            && (Report(c, acc.records, ths) == "" <==> forall e :: e in acc.records ==> e.1 == []))
  {
    var files := FilesWithKey(dir, HealthKey);
    if files != [] {
      assert files[0] in files;
      ScanFilesSound(c, files, now, cursor, ths);
      ReportEmpty(c, ScanFiles(c, files, now, cursor, ths).value.records, ths);
    }
  }

  /** A file last written an hour and a half ago is reported as one hour old; one written an hour ago is not reported. */
  lemma StaleExample(name: string)
    ensures Stale(name, 5_400_000_000) == name + " has not been updated in 1.0 hours.\n"
    ensures Stale(name, HourMicros) == ""
  {
    assert 5_400_000_000 / HourMicros == 1;
    assert NatToString(1) == "1";
  }

  /** The threshold loop for one record. */
  method CheckThresholdValues(st: HealthState, fileName: string, t: int, data: Json, ths: seq<(string, nat)>)
    returns (r: Result<HealthState>)
    ensures r == CheckThresholds(st, fileName, t, data, ths)
  {
    var alert := st.alert;
    var records := st.records;
    for i := 0 to |ths|
      invariant CheckThresholds(st, fileName, t, data, ths[..i]) == Ok(HealthState(alert, records))
    {
      assert ths[..i + 1][..i] == ths[..i];
      var (name, threshold) := ths[i];
      var has := Has(data, name);
      if has.Err? {
        ThresholdsStop(st, fileName, t, data, ths, i);
        return Err(has.fault);
      }
      if has.value {
        var v := Lookup(data, name);
        if v.Err? {
          ThresholdsStop(st, fileName, t, data, ths, i);
          return Err(v.fault);
        }
        var exceeds := Exceeds(v.value, threshold);
        if exceeds.Err? {
          ThresholdsStop(st, fileName, t, data, ths, i);
          return Err(exceeds.fault);
        }
        if exceeds.value {
          if name in Keys(records) {
            ThresholdsStop(st, fileName, t, data, ths, i);
            return Err(MissingKey("0"));
          }
          records := Put(records, fileName, Put(RecordsOf(records, fileName), name, (t, v.value)));
        }
      } else {
        alert := fileName + ": " + name + " not found.\n";
      }
    }
    assert ths[..|ths|] == ths;
    return Ok(HealthState(alert, records));
  }

  /** When the threshold loop stops at threshold i, the whole loop fails as it did there. */
  lemma {:induction false} ThresholdsStop(st: HealthState, fileName: string, t: int, data: Json,
                                          ths: seq<(string, nat)>, i: nat)
    requires i < |ths| && CheckThresholds(st, fileName, t, data, ths[..i + 1]).Err?
    ensures CheckThresholds(st, fileName, t, data, ths) == CheckThresholds(st, fileName, t, data, ths[..i + 1])
    decreases |ths|
  {
    var p := ths[..|ths| - 1];
    if i == |ths| - 1 {
      assert ths[..i + 1] == ths;
    } else {
      assert p[..i + 1] == ths[..i + 1];
      ThresholdsStop(st, fileName, t, data, p, i);
    }
  }

  /** The record loop of one file: re-key each record by its time and check the new ones. */
  method ScanHealthRecords(c: Codec, st: HealthState, fileName: string, d: Entries, cursor: int,
                           ths: seq<(string, nat)>) returns (r: Result<Pass>)
    ensures r == ScanRecords(c, Pass(st, []), fileName, d, cursor, ths)
  {
    var state := st;
    var converted: seq<(int, Json)> := [];
    for i := 0 to |d|
      invariant ScanRecords(c, Pass(st, []), fileName, d[..i], cursor, ths) == Ok(Pass(state, converted))
    {
      assert d[..i + 1][..i] == d[..i];
      var (key, data) := d[i];
      var parsed := StrToDatetime(c, key);
      if parsed.None? {
        RecordsStop(c, st, fileName, d, cursor, ths, i);
        return Err(BadTimestamp(key));
      }
      var t := parsed.value;
      converted := Put(converted, t, data);
      if t >= cursor {
        var checked := CheckThresholdValues(state, fileName, t, data, ths);
        if checked.Err? {
          RecordsStop(c, st, fileName, d, cursor, ths, i);
          return Err(checked.fault);
        }
        state := checked.value;
      }
    }
    assert d[..|d|] == d;
    return Ok(Pass(state, converted));
  }

  /** When the record loop stops at record i, the whole loop fails as it did there. */
  lemma {:induction false} RecordsStop(c: Codec, st: HealthState, fileName: string, d: Entries, cursor: int,
                                       ths: seq<(string, nat)>, i: nat)
    requires i < |d| && ScanRecords(c, Pass(st, []), fileName, d[..i + 1], cursor, ths).Err?
    ensures ScanRecords(c, Pass(st, []), fileName, d, cursor, ths) == ScanRecords(c, Pass(st, []), fileName, d[..i + 1], cursor, ths)
    decreases |d|
  {
    var p := d[..|d| - 1];
    if i == |d| - 1 {
      assert d[..i + 1] == d;
    } else {
      assert p[..i + 1] == d[..i + 1];
      RecordsStop(c, st, fileName, p, cursor, ths, i);
    }
  }

  /** One iteration of the file loop. */
  method CheckHealthFile(c: Codec, acc: HealthAcc, f: DirEntry, now: int, cursor: int, ths: seq<(string, nat)>)
    returns (r: Result<HealthAcc>)
    ensures r == FileStep(c, acc, f, now, cursor, ths)
  {
    var alert := acc.alert;
    if now - f.mtime > HourMicros {
      alert := alert + StaleLine(f.name, (now - f.mtime) / HourMicros);
    }
    assert alert == acc.alert + Stale(f.name, now - f.mtime);
    var records := Put(acc.records, f.name, []);
    FileStepEnters(c, acc, f, now, cursor, ths);
    var d: Entries;
    match f.content {
      case Absent =>
        return Ok(HealthAcc(alert + GoneLine(f), records, acc.heartbeat));
      case Malformed(reason) =>
        return Ok(HealthAcc(alert + "Error with " + f.name + ": " + reason + "\n", records, acc.heartbeat));
      case NotObject =>
        return Err(NotAMapping);
      case Blank =>
        d := [];
      case Doc(entries) =>
        d := entries;
    }
    var p :- ScanHealthRecords(c, HealthState(alert, records), f.name, d, cursor, ths);
    var latest :- Latest(p.converted);
    var lines :- LatestLines(c, latest, ths);
    return Ok(HealthAcc(p.state.alert, p.state.records,
                        acc.heartbeat + ServerLabel(f.name) + " ==>\n    " + Join("\n    ", lines) + "\n"));
  }

  /** The loop over the health log files. */
  method CheckHealthFiles(c: Codec, files: seq<DirEntry>, now: int, cursor: int, ths: seq<(string, nat)>)
    returns (r: Result<HealthAcc>)
    ensures r == ScanFiles(c, files, now, cursor, ths)
  {
    var acc := HealthAcc("", [], "");
    for i := 0 to |files|
      invariant ScanFiles(c, files[..i], now, cursor, ths) == Ok(acc)
    {
      assert files[..i + 1][..i] == files[..i];
      var next := CheckHealthFile(c, acc, files[i], now, cursor, ths);
      if next.Err? {
        FilesStop(c, files, now, cursor, ths, i);
        return next;
      }
      acc := next.value;
    }
    assert files[..|files|] == files;
    return Ok(acc);
  }

  /** When the file loop stops at file i, the whole loop fails as it did there. */
  lemma {:induction false} FilesStop(c: Codec, files: seq<DirEntry>, now: int, cursor: int, ths: seq<(string, nat)>, i: nat)
    requires i < |files| && ScanFiles(c, files[..i + 1], now, cursor, ths).Err?
    ensures ScanFiles(c, files, now, cursor, ths) == ScanFiles(c, files[..i + 1], now, cursor, ths)
    decreases |files|
  {
    var p := files[..|files| - 1];
    if i == |files| - 1 {
      assert files[..i + 1] == files;
    } else {
      assert p[..i + 1] == files[..i + 1];
      FilesStop(c, p, now, cursor, ths, i);
    }
  }

  /**
   * A health log whose JSON top level is not an object aborts the whole check: `.items()`
   * raises outside the `try`, with NotAMapping unless an earlier file already failed.
   */
  lemma NonObjectAborts(c: Codec, files: seq<DirEntry>, now: int, cursor: int, ths: seq<(string, nat)>, i: nat)
    requires i < |files| && files[i].content.NotObject?
    ensures ScanFiles(c, files, now, cursor, ths).Err?
    ensures ScanFiles(c, files[..i], now, cursor, ths).Ok? ==> ScanFiles(c, files, now, cursor, ths) == Err(NotAMapping)
  {
    var q := files[..i + 1];
    assert q[..i] == files[..i] && q[i] == files[i];
    FilesStop(c, files, now, cursor, ths, i);
  }

  /** The inner report loop: one line per reading of one file, appended to the text. */
  method AppendFileReport(c: Codec, text: string, fileName: string, recs: FileRecords, ths: seq<(string, nat)>)
    returns (out: string)
    ensures out == text + ReportFile(c, fileName, recs, ths)
  {
    out := text;
    for j := 0 to |recs|
      invariant out == text + ReportFile(c, fileName, recs[..j], ths)
    {
      assert recs[..j + 1][..j] == recs[..j];
      var line := ReportLine(c, fileName, recs[j], ths);
      assert ReportFile(c, fileName, recs[..j + 1], ths) == ReportFile(c, fileName, recs[..j], ths) + line;
      AppendAssoc(text, ReportFile(c, fileName, recs[..j], ths), line);
      out := out + line;
    }
    assert recs[..|recs|] == recs;
  }

  /** The report loops at lines 488-491, appending to the alert text. */
  method AppendReport(c: Codec, alert: string, records: Records, ths: seq<(string, nat)>) returns (text: string)
    ensures text == alert + Report(c, records, ths)
  {
    text := alert;
    for i := 0 to |records|
      invariant text == alert + Report(c, records[..i], ths)
    {
      assert records[..i + 1][..i] == records[..i];
      var (fileName, recs) := records[i];
      assert Report(c, records[..i + 1], ths) == Report(c, records[..i], ths) + ReportFile(c, fileName, recs, ths);
      AppendAssoc(alert, Report(c, records[..i], ths), ReportFile(c, fileName, recs, ths));
      text := AppendFileReport(c, text, fileName, recs, ths);
    }
    assert records[..|records|] == records;
  }

  /** The reading my_records holds for a file and a field name, if any. */
  function ViewAt(records: Records, fileName: string, name: string): Option<Reading>
  {
    var m := ToMap(RecordsOf(records, fileName));
    if name in m then Some(m[name]) else None
  }

  /** What one threshold makes of a record of time t: that time and the value, when the value exceeds it. */
  function Exceeding(t: int, data: Json, th: (string, nat)): Option<Reading>
  {
    match Lookup(data, th.0)
    case Ok(v) => if Exceeds(v, th.1) == Ok(true) then Some((t, v)) else None
    case Err(_) => None
  }

  /** What one threshold makes of a record: nothing when it is older than the cursor. */
  function Hit(c: Codec, e: (string, Json), cursor: int, th: (string, nat)): Option<Reading>
  {
    match StrToDatetime(c, e.0)
    case None => None
    case Some(t) => if t >= cursor then Exceeding(t, e.1, th) else None
  }

  /** The reading a file should leave for a threshold: the hit of its last record, in file order, that has one. */
  function LastHit(c: Codec, d: Entries, cursor: int, th: (string, nat)): Option<Reading>
  {
    if d == [] then None
    else if Hit(c, d[|d| - 1], cursor, th).Some? then Hit(c, d[|d| - 1], cursor, th)
    else LastHit(c, d[..|d| - 1], cursor, th)
  }

  /** The reading a listed file should leave: none unless its content decoded to an object. */
  function FileHit(c: Codec, f: DirEntry, cursor: int, th: (string, nat)): Option<Reading>
  {
    if f.content.Doc? then LastHit(c, f.content.entries, cursor, th) else None
  }

  /** No two listed files share a name unless they are the same entry, as in a directory listing. */
  predicate UniqueNames(files: seq<DirEntry>)
  {
    forall f, g :: f in files && g in files && f.name == g.name ==> f == g
  }

  /** LastHit is nothing exactly when no record of the file is a hit. */
  lemma {:induction false} LastHitNone(c: Codec, d: Entries, cursor: int, th: (string, nat))
    ensures LastHit(c, d, cursor, th).None? <==> forall i :: 0 <= i < |d| ==> Hit(c, d[i], cursor, th).None?
  {
    if d != [] {
      var n := |d| - 1;
      var p := d[..n];
      LastHitNone(c, p, cursor, th);
      assert forall i :: 0 <= i < n ==> p[i] == d[i];
    }
  }

  /** A LastHit is the hit of some record after which no record is a hit. */
  lemma LastHitSome(c: Codec, d: Entries, cursor: int, th: (string, nat))
    requires LastHit(c, d, cursor, th).Some?
    ensures exists i :: 0 <= i < |d| && Hit(c, d[i], cursor, th) == LastHit(c, d, cursor, th)
                        && forall j :: i < j < |d| ==> Hit(c, d[j], cursor, th).None?
  {
    var i := LastHitAt(c, d, cursor, th);
  }

  /** The position of the record whose hit LastHit is. */
  lemma {:induction false} LastHitAt(c: Codec, d: Entries, cursor: int, th: (string, nat)) returns (i: nat)
    requires LastHit(c, d, cursor, th).Some?
    ensures i < |d| && Hit(c, d[i], cursor, th) == LastHit(c, d, cursor, th)
    ensures forall j :: i < j < |d| ==> Hit(c, d[j], cursor, th).None?
  {
    var n := |d| - 1;
    if Hit(c, d[n], cursor, th).Some? {
      i := n;
    } else {
      var p := d[..n];
      i := LastHitAt(c, p, cursor, th);
      assert p[i] == d[i];
      forall j | i < j < |d| ensures Hit(c, d[j], cursor, th).None? {
        if j < n {
          assert p[j] == d[j];
        }
      }
    }
  }

  /** Setting one file's readings leaves every other file's readings alone. */
  lemma PutRecordsOf(records: Records, fileName: string, recs: FileRecords, g: string)
    requires Distinct(records)
    ensures RecordsOf(Put(records, fileName, recs), g) == if g == fileName then recs else RecordsOf(records, g)
  {
    PutProperties(records, fileName, recs);
  }

  /**
   * One threshold check records the record's reading under the threshold's name when the
   * value exceeds, and changes no other reading of any file.
   */
  lemma ThresholdStepView(st: HealthState, fileName: string, t: int, data: Json, th: (string, nat),
                          cursor: int, ths: seq<(string, nat)>)
    requires Sound(st.records, cursor, ths)
    requires ThresholdStep(st, fileName, t, data, th).Ok?
    ensures var r := ThresholdStep(st, fileName, t, data, th).value;
      (forall g :: g != fileName ==> RecordsOf(r.records, g) == RecordsOf(st.records, g))
      && forall n ::
           ViewAt(r.records, fileName, n)
             == if n == th.0 && Exceeding(t, data, th).Some? then Exceeding(t, data, th) else ViewAt(st.records, fileName, n)
  {
    var r := ThresholdStep(st, fileName, t, data, th).value;
    if Exceeding(t, data, th).Some? {
      var v := Lookup(data, th.0).value;
      ToMapKey(data.fields, th.0);
      assert Has(data, th.0) == Ok(true);
      var inner := RecordsOf(st.records, fileName);
      var next := Put(inner, th.0, (t, v));
      InnerDistinct(st.records, fileName, cursor, ths);
      PutProperties(inner, th.0, (t, v));
      assert r.records == Put(st.records, fileName, next);
      forall g ensures RecordsOf(r.records, g) == if g == fileName then next else RecordsOf(st.records, g) {
        PutRecordsOf(st.records, fileName, next, g);
      }
    } else {
      assert r.records == st.records;
    }
  }

  /**
   * The threshold loop for one record, with distinct threshold names: each threshold's name
   * gets the record's reading when its value exceeds and keeps its reading otherwise; no
   * other name and no other file changes.
   */
  lemma {:induction false} CheckThresholdsView(st: HealthState, fileName: string, t: int, data: Json,
                                               part: seq<(string, nat)>, cursor: int, ths: seq<(string, nat)>)
    requires Sound(st.records, cursor, ths) && NamesClean(ths) && forall th :: th in part ==> th in ths
    requires t >= cursor && fileName in Keys(st.records) && Distinct(part)
    requires CheckThresholds(st, fileName, t, data, part).Ok?
    ensures var r := CheckThresholds(st, fileName, t, data, part).value;
      (forall g :: g != fileName ==> RecordsOf(r.records, g) == RecordsOf(st.records, g))
      && (forall th :: th in part ==>
            ViewAt(r.records, fileName, th.0)
              == if Exceeding(t, data, th).Some? then Exceeding(t, data, th) else ViewAt(st.records, fileName, th.0))
      && (forall n :: n !in Keys(part) ==> ViewAt(r.records, fileName, n) == ViewAt(st.records, fileName, n))
  {
    if part != [] {
      var m := |part| - 1;
      var init := part[..m];
      var th := part[m];
      assert th in part;
      assert forall x :: x in init ==> x in part;
      CheckThresholdsView(st, fileName, t, data, init, cursor, ths);
      CheckThresholdsSound(st, fileName, t, data, init, cursor, ths);
      var prev := CheckThresholds(st, fileName, t, data, init).value;
      ThresholdStepView(prev, fileName, t, data, th, cursor, ths);
      ThresholdsCarry(part, prev.records, CheckThresholds(st, fileName, t, data, part).value.records,
                      st.records, fileName, t, data);
    }
  }

  /**
   * Readings that were each earlier threshold's, with the last threshold's step applied and
   * no other name changed, are each threshold's, for distinct threshold names.
   */
  lemma ThresholdsCarry(part: seq<(string, nat)>, before: Records, after: Records, start: Records,
                        fileName: string, t: int, data: Json)
    requires part != [] && Distinct(part)
    requires var init := part[..|part| - 1];
      (forall th :: th in init ==>
         ViewAt(before, fileName, th.0)
           == if Exceeding(t, data, th).Some? then Exceeding(t, data, th) else ViewAt(start, fileName, th.0))
      && (forall n :: n !in Keys(init) ==> ViewAt(before, fileName, n) == ViewAt(start, fileName, n))
    requires var th := part[|part| - 1];
      forall n ::
        ViewAt(after, fileName, n)
          == if n == th.0 && Exceeding(t, data, th).Some? then Exceeding(t, data, th) else ViewAt(before, fileName, n)
    ensures forall th :: th in part ==>
              ViewAt(after, fileName, th.0)
                == if Exceeding(t, data, th).Some? then Exceeding(t, data, th) else ViewAt(start, fileName, th.0)
    ensures forall n :: n !in Keys(part) ==> ViewAt(after, fileName, n) == ViewAt(start, fileName, n)
  {
    var m := |part| - 1;
    var init := part[..m];
    var th := part[m];
    assert Keys(part) == Keys(init) + [th.0];
    assert th.0 !in Keys(init) by {
      forall i | 0 <= i < m ensures Keys(init)[i] != th.0 {
        assert part[i].0 != part[m].0;
      }
    }
    forall x | x in part
      ensures ViewAt(after, fileName, x.0)
                == if Exceeding(t, data, x).Some? then Exceeding(t, data, x) else ViewAt(start, fileName, x.0)
    {
      var i :| 0 <= i < |part| && part[i] == x;
      if i < m {
        assert init[i] == x && x.0 != th.0;
      }
    }
  }

  /**
   * One record, with distinct threshold names: each threshold's name gets the record's hit
   * when it has one and keeps its reading otherwise; no other file changes.
   */
  lemma RecordStepView(c: Codec, p: Pass, fileName: string, e: (string, Json), cursor: int, ths: seq<(string, nat)>)
    requires Sound(p.state.records, cursor, ths) && NamesClean(ths) && Distinct(ths)
    requires fileName in Keys(p.state.records)
    requires RecordStep(c, p, fileName, e, cursor, ths).Ok?
    ensures var r := RecordStep(c, p, fileName, e, cursor, ths).value;
      (forall g :: g != fileName ==> RecordsOf(r.state.records, g) == RecordsOf(p.state.records, g))
      && forall th :: th in ths ==>
           ViewAt(r.state.records, fileName, th.0)
             == if Hit(c, e, cursor, th).Some? then Hit(c, e, cursor, th) else ViewAt(p.state.records, fileName, th.0)
  {
    var t := StrToDatetime(c, e.0).value;
    if t >= cursor {
      CheckThresholdsView(p.state, fileName, t, e.1, ths, cursor, ths);
    }
  }

  /**
   * The record loop of one file: each threshold's name ends with the file's last hit for it,
   * or keeps its earlier reading when no record is a hit; no other file changes.
   */
  lemma {:induction false} ScanRecordsView(c: Codec, init: Pass, fileName: string, d: Entries, cursor: int,
                                           ths: seq<(string, nat)>)
    requires Sound(init.state.records, cursor, ths) && NamesClean(ths) && Distinct(ths)
    requires fileName in Keys(init.state.records)
    requires ScanRecords(c, init, fileName, d, cursor, ths).Ok?
    ensures var r := ScanRecords(c, init, fileName, d, cursor, ths).value;
      (forall g :: g != fileName ==> RecordsOf(r.state.records, g) == RecordsOf(init.state.records, g))
      && forall th :: th in ths ==>
           ViewAt(r.state.records, fileName, th.0)
             == if LastHit(c, d, cursor, th).Some? then LastHit(c, d, cursor, th) else ViewAt(init.state.records, fileName, th.0)
  {
    if d != [] {
      var q := d[..|d| - 1];
      ScanRecordsView(c, init, fileName, q, cursor, ths);
      ScanRecordsSound(c, init, fileName, q, cursor, ths);
      var prev := ScanRecords(c, init, fileName, q, cursor, ths).value;
      RecordStepView(c, prev, fileName, d[|d| - 1], cursor, ths);
    }
  }

  /**
   * One file of the loop, with distinct threshold names: afterwards the file's reading for
   * each threshold is exactly its FileHit (its entry starts empty), and no other file changes.
   */
  lemma EnterFileView(c: Codec, acc: HealthAcc, f: DirEntry, stale: string, cursor: int, ths: seq<(string, nat)>)
    requires Sound(acc.records, cursor, ths) && NamesClean(ths) && Distinct(ths) && Contains(f.name, HealthKey)
    requires EnterFile(c, acc, f, stale, cursor, ths).Ok?
    ensures var r := EnterFile(c, acc, f, stale, cursor, ths).value;
      (forall g :: g != f.name ==> RecordsOf(r.records, g) == RecordsOf(acc.records, g))
      && forall th :: th in ths ==> ViewAt(r.records, f.name, th.0) == FileHit(c, f, cursor, th)
  {
    var records := Put(acc.records, f.name, []);
    assert EnterFile(c, acc, f, stale, cursor, ths) == FileContent(c, acc.alert + stale, records, acc.heartbeat, f, cursor, ths);
    EnterSound(acc.records, f.name, cursor, ths);
    EmptyEntry(acc.records, f.name);
    FileContentView(c, acc.alert + stale, records, acc.heartbeat, f, cursor, ths);
  }

  /** Setting a file's readings to an empty dict leaves every other file's readings alone. */
  lemma EmptyEntry(records: Records, fileName: string)
    requires Distinct(records)
    ensures forall g :: RecordsOf(Put(records, fileName, []), g) == if g == fileName then [] else RecordsOf(records, g)
  {
    forall g ensures RecordsOf(Put(records, fileName, []), g) == if g == fileName then [] else RecordsOf(records, g) {
      PutRecordsOf(records, fileName, [], g);
    }
  }

  /** Reading one file whose entry is still empty leaves exactly its FileHit readings, and no other file changes. */
  lemma FileContentView(c: Codec, alert: string, records: Records, heartbeat: string, f: DirEntry,
                        cursor: int, ths: seq<(string, nat)>)
    requires Sound(records, cursor, ths) && NamesClean(ths) && Distinct(ths)
    requires f.name in Keys(records) && RecordsOf(records, f.name) == []
    requires FileContent(c, alert, records, heartbeat, f, cursor, ths).Ok?
    ensures var r := FileContent(c, alert, records, heartbeat, f, cursor, ths).value;
      (forall g :: g != f.name ==> RecordsOf(r.records, g) == RecordsOf(records, g))
      && forall th :: th in ths ==> ViewAt(r.records, f.name, th.0) == FileHit(c, f, cursor, th)
  {
    assert forall n :: ViewAt(records, f.name, n) == None;
    if f.content.Doc? {
      ScanRecordsView(c, Pass(HealthState(alert, records), []), f.name, f.content.entries, cursor, ths);
    }
  }

  /** The same for one file of the loop, its staleness line worked out from the clock. */
  lemma FileStepView(c: Codec, acc: HealthAcc, f: DirEntry, now: int, cursor: int, ths: seq<(string, nat)>)
    requires Sound(acc.records, cursor, ths) && NamesClean(ths) && Distinct(ths) && Contains(f.name, HealthKey)
    requires FileStep(c, acc, f, now, cursor, ths).Ok?
    ensures var r := FileStep(c, acc, f, now, cursor, ths).value;
      (forall g :: g != f.name ==> RecordsOf(r.records, g) == RecordsOf(acc.records, g))
      && forall th :: th in ths ==> ViewAt(r.records, f.name, th.0) == FileHit(c, f, cursor, th)
  {
    FileStepEnters(c, acc, f, now, cursor, ths);
    EnterFileView(c, acc, f, Stale(f.name, now - f.mtime), cursor, ths);
  }

  /**
   * The file loop over health log files with distinct names: afterwards every file's reading
   * for every threshold is exactly its FileHit.
   */
  lemma {:induction false} ScanFilesView(c: Codec, files: seq<DirEntry>, now: int, cursor: int, ths: seq<(string, nat)>)
    requires NamesClean(ths) && Distinct(ths) && UniqueNames(files)
    requires forall f :: f in files ==> Contains(f.name, HealthKey)
    requires ScanFiles(c, files, now, cursor, ths).Ok?
    ensures var r := ScanFiles(c, files, now, cursor, ths).value;
      forall f, th :: f in files && th in ths ==> ViewAt(r.records, f.name, th.0) == FileHit(c, f, cursor, th)
  {
    if files != [] {
      var m := |files| - 1;
      var init := files[..m];
      var f := files[m];
      assert f in files;
      assert forall g :: g in init ==> g in files;
      ScanFilesView(c, init, now, cursor, ths);
      ScanFilesSound(c, init, now, cursor, ths);
      var prev := ScanFiles(c, init, now, cursor, ths).value;
      assert ScanFiles(c, files, now, cursor, ths) == FileStep(c, prev, f, now, cursor, ths);
      FileStepView(c, prev, f, now, cursor, ths);
      ViewsCarry(c, files, prev.records, ScanFiles(c, files, now, cursor, ths).value.records, cursor, ths);
    }
  }

  /**
   * Readings that were each earlier file's FileHit, with the last file's readings set to its
   * FileHit and no other file changed, are each listed file's FileHit.
   */
  lemma ViewsCarry(c: Codec, files: seq<DirEntry>, before: Records, after: Records, cursor: int, ths: seq<(string, nat)>)
    requires files != [] && UniqueNames(files)
    requires var init := files[..|files| - 1];
      forall f, th :: f in init && th in ths ==> ViewAt(before, f.name, th.0) == FileHit(c, f, cursor, th)
    requires var f := files[|files| - 1];
      (forall g :: g != f.name ==> RecordsOf(after, g) == RecordsOf(before, g))
      && forall th :: th in ths ==> ViewAt(after, f.name, th.0) == FileHit(c, f, cursor, th)
    ensures forall f, th :: f in files && th in ths ==> ViewAt(after, f.name, th.0) == FileHit(c, f, cursor, th)
  {
    var m := |files| - 1;
    var init := files[..m];
    var f := files[m];
    assert f in files;
    forall g, th | g in files && th in ths ensures ViewAt(after, g.name, th.0) == FileHit(c, g, cursor, th) {
      if g.name != f.name {
        var j :| 0 <= j < |files| && files[j] == g;
        assert j < m && init[j] == g;
        assert RecordsOf(after, g.name) == RecordsOf(before, g.name);
      }
    }
  }

  /** The reading my_records holds for entry i's file under its reading j's name is that reading. */
  lemma ViewAtEntry(records: Records, i: nat, j: nat)
    requires Distinct(records) && i < |records| && Distinct(records[i].1) && j < |records[i].1|
    ensures ViewAt(records, records[i].0, records[i].1[j].0) == Some(records[i].1[j].1)
  {
    ToMapEntry(records, i);
    ToMapEntry(records[i].1, j);
  }

  /** Every reading of every file of my_records has its line in the report. */
  lemma {:induction false} ReportHasLine(c: Codec, records: Records, ths: seq<(string, nat)>, i: nat, j: nat)
    requires i < |records| && j < |records[i].1|
    ensures Contains(Report(c, records, ths), ReportLine(c, records[i].0, records[i].1[j], ths))
  {
    var n := |records| - 1;
    var p := records[..n];
    if i < n {
      assert p[i] == records[i];
      ReportHasLine(c, p, ths, i, j);
      ContainsAppend(Report(c, p, ths), ReportFile(c, records[n].0, records[n].1, ths),
                     ReportLine(c, records[i].0, records[i].1[j], ths));
    } else {
      FileReportHasLine(c, records[n].0, records[n].1, ths, j);
      ContainsPrepend(Report(c, p, ths), ReportFile(c, records[n].0, records[n].1, ths),
                      ReportLine(c, records[i].0, records[i].1[j], ths));
    }
  }

  /** Every reading of a file has its line in the file's report. */
  lemma {:induction false} FileReportHasLine(c: Codec, fileName: string, recs: FileRecords, ths: seq<(string, nat)>, j: nat)
    requires j < |recs|
    ensures Contains(ReportFile(c, fileName, recs, ths), ReportLine(c, fileName, recs[j], ths))
  {
    var n := |recs| - 1;
    var p := recs[..n];
    var line := ReportLine(c, fileName, recs[j], ths);
    if j < n {
      assert p[j] == recs[j];
      FileReportHasLine(c, fileName, p, ths, j);
      ContainsAppend(ReportFile(c, fileName, p, ths), ReportLine(c, fileName, recs[n], ths), line);
    } else {
      assert line <= line;
      ContainsPrepend(ReportFile(c, fileName, p, ths), line, line);
    }
  }

  /** A reading my_records holds for a file and a name has its line in the report. */
  lemma ViewReported(c: Codec, records: Records, ths: seq<(string, nat)>, fileName: string, name: string)
    requires ViewAt(records, fileName, name).Some?
    ensures Contains(Report(c, records, ths),
                     ReportLine(c, fileName, (name, ViewAt(records, fileName, name).value), ths))
  {
    var recs := RecordsOf(records, fileName);
    ToMapValue(records, fileName);
    ToMapValue(recs, name);
    var i :| 0 <= i < |records| && records[i] == (fileName, recs);
    var j :| 0 <= j < |recs| && recs[j] == (name, ToMap(recs)[name]);
    ReportHasLine(c, records, ths, i, j);
  }

  /**
   * check_system_health's threshold scan is complete and exact, with a directory listing of
   * distinct names and distinct threshold names. For every health log file and threshold,
   * my_records holds exactly the file's last hit (the last record not older than the cursor
   * whose value exceeds the threshold), whose line is then in the alert text; every reading
   * my_records holds is such a hit; and the report adds nothing exactly when no file has a hit.
   */
  lemma CheckHealthReadings(c: Codec, dir: seq<DirEntry>, now: int, cursor: int, ths: seq<(string, nat)>)
    requires NamesClean(ths) && Distinct(ths) && UniqueNames(dir)
    requires CheckHealth(c, dir, now, cursor, ths).Ok?
    ensures var r := CheckHealth(c, dir, now, cursor, ths).value;
      var files := FilesWithKey(dir, HealthKey);
      r.Checked? ==>
        var acc := ScanFiles(c, files, now, cursor, ths).value;
        (forall f, th :: f in files && th in ths ==> ViewAt(acc.records, f.name, th.0) == FileHit(c, f, cursor, th))
        && (forall f, th :: f in files && th in ths && FileHit(c, f, cursor, th).Some? ==>
              Contains(r.alert, ReportLine(c, f.name, (th.0, FileHit(c, f, cursor, th).value), ths)))
        && (forall e, x :: e in acc.records && x in e.1 ==>
              exists f, th :: f in files && th in ths && f.name == e.0 && th.0 == x.0
                              && FileHit(c, f, cursor, th) == Some(x.1))
        && (r.alert == acc.alert <==> forall f, th :: f in files && th in ths ==> FileHit(c, f, cursor, th).None?)
  {
    var files := FilesWithKey(dir, HealthKey);
    if files != [] {
      var acc := ScanFiles(c, files, now, cursor, ths).value;
      var report := Report(c, acc.records, ths);
      assert CheckHealth(c, dir, now, cursor, ths).value.alert == acc.alert + report;
      ScanFilesSound(c, files, now, cursor, ths);
      ScanFilesView(c, files, now, cursor, ths);
      HitsReported(c, files, acc.records, cursor, ths);
      forall e, x | e in acc.records && x in e.1
        ensures exists f, th :: f in files && th in ths && f.name == e.0 && th.0 == x.0
                                && FileHit(c, f, cursor, th) == Some(x.1)
      {
        ReadingProvenance(c, files, acc.records, cursor, ths, e, x);
      }
      ReportEmptyNoHits(c, files, acc.records, cursor, ths);
      forall f, th | f in files && th in ths && FileHit(c, f, cursor, th).Some?
        ensures Contains(acc.alert + report, ReportLine(c, f.name, (th.0, FileHit(c, f, cursor, th).value), ths))
      {
        ContainsPrepend(acc.alert, report, ReportLine(c, f.name, (th.0, FileHit(c, f, cursor, th).value), ths));
      }
    }
  }

  /** Every file's hit for every threshold has its line in the report of readings that are those hits. */
  lemma HitsReported(c: Codec, files: seq<DirEntry>, records: Records, cursor: int, ths: seq<(string, nat)>)
    requires forall f, th :: f in files && th in ths ==> ViewAt(records, f.name, th.0) == FileHit(c, f, cursor, th)
    ensures forall f, th :: f in files && th in ths && FileHit(c, f, cursor, th).Some? ==>
              Contains(Report(c, records, ths), ReportLine(c, f.name, (th.0, FileHit(c, f, cursor, th).value), ths))
  {
    forall f, th | f in files && th in ths && FileHit(c, f, cursor, th).Some?
      ensures Contains(Report(c, records, ths), ReportLine(c, f.name, (th.0, FileHit(c, f, cursor, th).value), ths))
    {
      ViewReported(c, records, ths, f.name, th.0);
    }
  }

  /** With readings that are exactly the files' hits, the report is empty exactly when no file has a hit. */
  lemma ReportEmptyNoHits(c: Codec, files: seq<DirEntry>, records: Records, cursor: int, ths: seq<(string, nat)>)
    requires Sound(records, cursor, ths)
    requires forall k :: k in Keys(records) ==> exists f :: f in files && f.name == k
    requires forall f, th :: f in files && th in ths ==> ViewAt(records, f.name, th.0) == FileHit(c, f, cursor, th)
    ensures Report(c, records, ths) == "" <==> forall f, th :: f in files && th in ths ==> FileHit(c, f, cursor, th).None?
  {
    ReportEmpty(c, records, ths);
    if forall f, th :: f in files && th in ths ==> FileHit(c, f, cursor, th).None? {
      forall e | e in records ensures e.1 == [] {
        if e.1 != [] {
          assert e.1[0] in e.1;
          ReadingProvenance(c, files, records, cursor, ths, e, e.1[0]);
        }
      }
    } else {
      var f, th :| f in files && th in ths && FileHit(c, f, cursor, th).Some?;
      var line := ReportLine(c, f.name, (th.0, FileHit(c, f, cursor, th).value), ths);
      ViewReported(c, records, ths, f.name, th.0);
      ContainsLength(Report(c, records, ths), line);
    }
  }

  /** A reading in a sound my_records whose readings are the files' hits is the hit of its file and name. */
  lemma ReadingProvenance(c: Codec, files: seq<DirEntry>, records: Records, cursor: int, ths: seq<(string, nat)>,
                          e: (string, FileRecords), x: (string, Reading))
    requires Sound(records, cursor, ths) && e in records && x in e.1
    requires forall k :: k in Keys(records) ==> exists f :: f in files && f.name == k
    requires forall f, th :: f in files && th in ths ==> ViewAt(records, f.name, th.0) == FileHit(c, f, cursor, th)
    ensures exists f, th :: f in files && th in ths && f.name == e.0 && th.0 == x.0 && FileHit(c, f, cursor, th) == Some(x.1)
  {
    assert FileSound(e, cursor, ths) && ReadingOk(x, cursor, ths);
    var th :| th in ths && th.0 == x.0 && Exceeds(x.1.1, th.1) == Ok(true);
    var i :| 0 <= i < |records| && records[i] == e;
    var j :| 0 <= j < |e.1| && e.1[j] == x;
    assert Keys(records)[i] == e.0;
    assert e.0 in Keys(records);
    var f :| f in files && f.name == e.0;
    ViewAtEntry(records, i, j);
  }

  /** With the 95 threshold on disk usage, a reading of 97 is a hit and one of 80 is not. */
  lemma DiskUsageExample(c: Codec, key: string, t: int, cursor: int)
    requires StrToDatetime(c, key) == Some(t) && t >= cursor
    ensures Hit(c, (key, JObj([("disk_usage", JInt(97))])), cursor, Thresholds[0]) == Some((t, JInt(97)))
    ensures Hit(c, (key, JObj([("disk_usage", JInt(80))])), cursor, Thresholds[0]) == None
  {
    assert ToMap([("disk_usage", JInt(97))]) == map["disk_usage" := JInt(97)];
    assert ToMap([("disk_usage", JInt(80))]) == map["disk_usage" := JInt(80)];
  }
}
