/**
 * The general-log scan: every record newer than a cursor is split into heartbeat text and
 * alarm text by its field names, and the cursor advances to the newest record seen.
 */
module GeneralLogs {
  import opened Results
  import opened Text
  import opened Json
  import opened Formats
  import opened LogStore

  /** Field names whose lines go to the alarm chat rather than the heartbeat chat. */
  const AlarmWords: seq<string> := ["alert", "error"]

  function Max(a: int, b: int): (m: int)
    ensures m >= a && m >= b && (m == a || m == b)
  {
    if a >= b then a else b
  }

  /** What check_values returns: heartbeat text, alarm text and the advanced cursor. */
  datatype ScanOut = ScanOut(heartbeat: string, alarm: string, newest: int)

  /** The fields whose name is (`alarm`) or is not (`!alarm`) one of the words, in order. */
  function Select(fields: seq<(string, Json)>, words: seq<string>, alarm: bool): (r: seq<(string, Json)>)
    ensures |r| <= |fields|
    ensures forall x :: x in r <==> x in fields && (x.0 in words <==> alarm)
  {
    if fields == [] then []
    else
      var last := fields[|fields| - 1];
      var rest := Select(fields[..|fields| - 1], words, alarm);
      if (last.0 in words) == alarm then rest + [last] else rest
  }

  /** Every field goes to exactly one of the two texts, and none is lost or repeated. */
  lemma {:induction false} SelectPartition(fields: seq<(string, Json)>, words: seq<string>)
    ensures multiset(Select(fields, words, true)) + multiset(Select(fields, words, false)) == multiset(fields)
  {
    if fields != [] {
      var p := fields[..|fields| - 1];
      SelectPartition(p, words);
      assert fields == p + [fields[|fields| - 1]];
    }
  }

  /** One `    key: value` line of a record. */
  function FieldLine(c: Codec, f: (string, Json)): (line: string)
    ensures |line| >= 4
  {
    "    " + f.0 + ": " + c.showValue(f.1)
  }

  function FieldLines(c: Codec, fields: seq<(string, Json)>): (lines: seq<string>)
    ensures |lines| == |fields|
  {
    seq(|fields|, i requires 0 <= i < |fields| => FieldLine(c, fields[i]))
  }

  /** The text one record adds for one set of fields: a time header and its lines, or nothing. */
  function Block(c: Codec, t: int, fields: seq<(string, Json)>): string
  {
    var body := Join("\n", FieldLines(c, fields));
    if |body| > 0 then "  " + c.showTime(t) + ":\n" + body + "\n" else ""
  }

  /** A block is written exactly when its list of fields is non-empty. */
  lemma BlockNonEmpty(c: Codec, t: int, fields: seq<(string, Json)>)
    ensures Block(c, t, fields) != "" <==> fields != []
  {
    var lines := FieldLines(c, fields);
    if |lines| > 0 {
      JoinLength(lines);
    }
  }

  lemma {:induction false} JoinLength(lines: seq<string>)
    requires |lines| > 0 && |lines[0]| > 0
    ensures |Join("\n", lines)| > 0
  {
  }

  /** A record is skipped (its time is at most the cursor), or must be a mapping to be scanned. */
  predicate Breaks(c: Codec, e: (string, Json), cursor: int)
  {
    match StrToDatetime(c, e.0)
    case None => true
    case Some(t) => t > cursor && !e.1.JObj?
  }

  /** check_values, record by record in file order. */
  function Scan(c: Codec, d: Entries, cursor: int, words: seq<string>): Result<ScanOut>
  {
    if d == [] then Ok(ScanOut("", "", cursor))
    else
      var prev :- Scan(c, d[..|d| - 1], cursor, words);
      var e := d[|d| - 1];
      match StrToDatetime(c, e.0)
      case None => Err(BadTimestamp(e.0))
      case Some(t) =>
        if t <= cursor then Ok(prev)
        else if !e.1.JObj? then Err(NotAMapping)
        else
          var fields := e.1.fields;
          Ok(ScanOut(prev.heartbeat + Block(c, t, Select(fields, words, false)),
                     prev.alarm + Block(c, t, Select(fields, words, true)),
                     Max(prev.newest, t)))
  }

  /** The scan fails exactly when some key is unreadable or some newer record is not a mapping. */
  lemma {:induction false} ScanFails(c: Codec, d: Entries, cursor: int, words: seq<string>)
    ensures Scan(c, d, cursor, words).Err? <==> exists i :: 0 <= i < |d| && Breaks(c, d[i], cursor)
  {
    if d != [] {
      var p := d[..|d| - 1];
      ScanFails(c, p, cursor, words);
      ScanFailsStep(c, d, cursor, words);
      BreaksStep(c, d, cursor);
    }
  }

  /** Some record of the store breaks the scan. */
  predicate AnyBreaks(c: Codec, d: Entries, cursor: int)
  {
    exists i :: 0 <= i < |d| && Breaks(c, d[i], cursor)
  }

  /** Some record of a store breaks the scan exactly when one before the last does or the last does. */
  lemma BreaksStep(c: Codec, d: Entries, cursor: int)
    requires d != []
    ensures AnyBreaks(c, d, cursor) <==> AnyBreaks(c, d[..|d| - 1], cursor) || Breaks(c, d[|d| - 1], cursor)
  {
    var p := d[..|d| - 1];
    if exists i :: 0 <= i < |d| && Breaks(c, d[i], cursor) {
      var i :| 0 <= i < |d| && Breaks(c, d[i], cursor);
      if i < |p| {
        assert p[i] == d[i];
      }
    }
    if exists i :: 0 <= i < |p| && Breaks(c, p[i], cursor) {
      var i :| 0 <= i < |p| && Breaks(c, p[i], cursor);
      assert p[i] == d[i];
    }
  }

  /** One more record fails the scan exactly when the scan so far failed or the record breaks it. */
  lemma ScanFailsStep(c: Codec, d: Entries, cursor: int, words: seq<string>)
    requires d != []
    ensures Scan(c, d, cursor, words).Err? <==>
              Scan(c, d[..|d| - 1], cursor, words).Err? || Breaks(c, d[|d| - 1], cursor)
  {
  }

  /**
   * A whole-second ISO key (what `isoformat()` writes when the microseconds are zero) makes
   * every scan of its file fail, whatever the cursor, although pruning reads it.
   */
  lemma ScanRefusesWholeSecond(c: Codec, d: Entries, cursor: int, words: seq<string>, i: nat, t: int)
    requires i < |d| && d[i].0 == c.isoFormat(t)
    requires c.number(c.isoFormat(t)) == None
    requires c.isoLenient(c.isoFormat(t)) == Some(t)
    requires c.isoStrict(c.isoFormat(t)) == None
    ensures Scan(c, d, cursor, words).Err?
    ensures ParseForPrune(c, d[i].0) == Some(Finite(t))
  {
    WholeSecondStamp(c, t);
    assert Breaks(c, d[i], cursor);
    ScanFails(c, d, cursor, words);
  }

  /**
   * The returned cursor is the maximum of the given cursor and the times of all records:
   * never below the given cursor, at least every record's time, and one of them.
   */
  lemma ScanCursor(c: Codec, d: Entries, cursor: int, words: seq<string>)
    requires Scan(c, d, cursor, words).Ok?
    ensures var n := Scan(c, d, cursor, words).value.newest;
      n >= cursor
      && (forall i :: 0 <= i < |d| ==> StrToDatetime(c, d[i].0).Some? && StrToDatetime(c, d[i].0).value <= n)
      && (n == cursor || exists i :: 0 <= i < |d| && StrToDatetime(c, d[i].0) == Some(n))
  {
    ScanAttained(c, d, cursor, words);
    forall i | 0 <= i < |d|
      ensures StrToDatetime(c, d[i].0).Some?
      ensures StrToDatetime(c, d[i].0).value <= Scan(c, d, cursor, words).value.newest
    {
      ScanRecordBound(c, d, cursor, words, i);
    }
  }

  /** The last record's step of the scan. */
  lemma ScanLast(c: Codec, d: Entries, cursor: int, words: seq<string>)
    requires d != [] && Scan(c, d, cursor, words).Ok?
    ensures var p := d[..|d| - 1];
      Scan(c, p, cursor, words).Ok? && StrToDatetime(c, d[|d| - 1].0).Some?
      && var t := StrToDatetime(c, d[|d| - 1].0).value;
         Scan(c, d, cursor, words).value.newest
           == if t <= cursor then Scan(c, p, cursor, words).value.newest else Max(Scan(c, p, cursor, words).value.newest, t)
  {
  }

  lemma {:induction false} ScanRecordBound(c: Codec, d: Entries, cursor: int, words: seq<string>, i: nat)
    requires i < |d| && Scan(c, d, cursor, words).Ok?
    ensures StrToDatetime(c, d[i].0).Some?
    ensures StrToDatetime(c, d[i].0).value <= Scan(c, d, cursor, words).value.newest
    decreases |d|
  {
    ScanGrows(c, d, cursor, words);
    if i < |d| - 1 {
      var p := d[..|d| - 1];
      ScanRecordBound(c, p, cursor, words, i);
      assert p[i] == d[i];
    }
  }

  /** The last record's step keeps every earlier bound and bounds the last record's time. */
  lemma ScanGrows(c: Codec, d: Entries, cursor: int, words: seq<string>)
    requires d != [] && Scan(c, d, cursor, words).Ok?
    ensures var p := d[..|d| - 1];
      Scan(c, p, cursor, words).Ok?
      && Scan(c, p, cursor, words).value.newest <= Scan(c, d, cursor, words).value.newest
    ensures StrToDatetime(c, d[|d| - 1].0).Some?
      && StrToDatetime(c, d[|d| - 1].0).value <= Scan(c, d, cursor, words).value.newest
  {
    ScanLast(c, d, cursor, words);
    ScanFloor(c, d[..|d| - 1], cursor, words);
  }

  lemma {:induction false} ScanFloor(c: Codec, d: Entries, cursor: int, words: seq<string>)
    requires Scan(c, d, cursor, words).Ok?
    ensures Scan(c, d, cursor, words).value.newest >= cursor
  {
    if d != [] {
      ScanLast(c, d, cursor, words);
      ScanFloor(c, d[..|d| - 1], cursor, words);
    }
  }

  lemma {:induction false} ScanAttained(c: Codec, d: Entries, cursor: int, words: seq<string>)
    requires Scan(c, d, cursor, words).Ok?
    ensures var n := Scan(c, d, cursor, words).value.newest;
      n == cursor || exists i :: 0 <= i < |d| && StrToDatetime(c, d[i].0) == Some(n)
  {
    if d != [] {
      var p := d[..|d| - 1];
      ScanLast(c, d, cursor, words);
      ScanAttained(c, p, cursor, words);
      var np := Scan(c, p, cursor, words).value.newest;
      if np != cursor && Scan(c, d, cursor, words).value.newest == np {
        var i :| 0 <= i < |p| && StrToDatetime(c, p[i].0) == Some(np);
        var e := d[i];
        assert e == p[i];
      }
    }
  }

  /** A record at or before the cursor contributes nothing: removing it changes no part of the result. */
  lemma {:induction false} ScanSkipsOld(c: Codec, d: Entries, cursor: int, words: seq<string>, i: nat)
    requires i < |d|
    requires StrToDatetime(c, d[i].0).Some? && StrToDatetime(c, d[i].0).value <= cursor
    ensures Scan(c, d, cursor, words) == Scan(c, d[..i] + d[i + 1..], cursor, words)
  {
    var n := |d| - 1;
    var p := d[..n];
    if i == n {
      assert d[..i] + d[i + 1..] == p;
      ScanSkipsLast(c, d, cursor, words);
    } else {
      ScanSkipsOld(c, p, cursor, words, i);
      DeleteBeforeLast(d, i);
      ScanSameLast(c, d, d[..i] + d[i + 1..], cursor, words);
    }
  }

  /** A last record at or before the cursor leaves the scan of the others as it was. */
  lemma ScanSkipsLast(c: Codec, d: Entries, cursor: int, words: seq<string>)
    requires d != []
    requires StrToDatetime(c, d[|d| - 1].0).Some? && StrToDatetime(c, d[|d| - 1].0).value <= cursor
    ensures Scan(c, d, cursor, words) == Scan(c, d[..|d| - 1], cursor, words)
  {
  }

  /** Two stores that end in the same record and scan alike before it scan alike. */
  lemma ScanSameLast(c: Codec, d1: Entries, d2: Entries, cursor: int, words: seq<string>)
    requires d1 != [] && d2 != [] && d1[|d1| - 1] == d2[|d2| - 1]
    requires Scan(c, d1[..|d1| - 1], cursor, words) == Scan(c, d2[..|d2| - 1], cursor, words)
    ensures Scan(c, d1, cursor, words) == Scan(c, d2, cursor, words)
  {
  }

  /** check_values: the loop over the records of one file. */
  method CheckValues(c: Codec, data: Entries, cursor: int, words: seq<string>) returns (r: Result<ScanOut>)
    ensures r == Scan(c, data, cursor, words)
  {
    var heartbeat := "";
    var alarm := "";
    var newest := cursor;
    var i := 0;
    while i < |data|
      invariant 0 <= i <= |data|
      invariant Scan(c, data[..i], cursor, words) == Ok(ScanOut(heartbeat, alarm, newest))
    {
      assert data[..i + 1][..i] == data[..i];
      var (key, record) := data[i];
      var parsed := StrToDatetime(c, key);
      if parsed.None? {
        ScanStops(c, data, cursor, words, i);
        return Err(BadTimestamp(key));
      }
      var t := parsed.value;
      if t <= cursor {
        i := i + 1;
        continue;
      } else if t > newest {
        newest := t;
      }
      if !record.JObj? {
        ScanStops(c, data, cursor, words, i);
        return Err(NotAMapping);
      }
      heartbeat := heartbeat + Block(c, t, Select(record.fields, words, false));
      alarm := alarm + Block(c, t, Select(record.fields, words, true));
      i := i + 1;
    }
    assert data[..i] == data;
    return Ok(ScanOut(heartbeat, alarm, newest));
  }

  /** When the loop stops at record i, the scan fails with the fault record i raises. */
  lemma {:induction false} ScanStops(c: Codec, d: Entries, cursor: int, words: seq<string>, i: nat)
    requires i < |d| && Scan(c, d[..i], cursor, words).Ok? && Breaks(c, d[i], cursor)
    ensures Scan(c, d, cursor, words) == Scan(c, d[..i + 1], cursor, words)
    ensures Scan(c, d, cursor, words).Err?
    decreases |d|
  {
    var p := d[..|d| - 1];
    if i == |d| - 1 {
      assert d[..i + 1] == d;
    } else {
      assert p[..i] == d[..i] && p[i] == d[i];
      ScanStops(c, p, cursor, words, i);
      calc {
        Scan(c, d, cursor, words);
      == { ScanPropagates(c, d, cursor, words); }
        Scan(c, p, cursor, words);
      == { assert p[..i + 1] == d[..i + 1]; }
        Scan(c, d[..i + 1], cursor, words);
      }
    }
  }

  /** Once the scan has failed, later records do not change its outcome. */
  lemma ScanPropagates(c: Codec, d: Entries, cursor: int, words: seq<string>)
    requires d != [] && Scan(c, d[..|d| - 1], cursor, words).Err?
    ensures Scan(c, d, cursor, words) == Scan(c, d[..|d| - 1], cursor, words)
  {
  }

  /** The server label of a log file: the text of its name after the first '.', up to ".json". */
  function ServerLabel(name: string): string
  {
    Join(".", Split(Split(name, ".json")[0], ".")[1..])
  }

  /**
   * With `h` the part of the name before ".json": the label is what follows the first '.'
   * of `h`, and it is empty when `h` has no '.'.
   */
  lemma ServerLabelSpec(name: string, u: string, w: string)
    requires '.' !in u
    ensures Split(name, ".json")[0] == u + "." + w ==> ServerLabel(name) == w
    ensures Split(name, ".json")[0] == u ==> ServerLabel(name) == ""
  {
    if Split(name, ".json")[0] == u + "." + w {
      SplitAtFirst(u, '.', w);
      assert Split(u + "." + w, ".")[1..] == Split(w, ".");
      JoinSplit(w, ".");
    }
    if Split(name, ".json")[0] == u {
      SplitAbsent(u, '.');
    }
  }

  /** get_files_given_key: the listed files whose name contains the key, in listing order. */
  function FilesWithKey(dir: seq<DirEntry>, key: string): (r: seq<DirEntry>)
    ensures |r| <= |dir|
    ensures forall f :: f in r <==> f in dir && Contains(f.name, key)
  {
    if dir == [] then []
    else
      var rest := FilesWithKey(dir[..|dir| - 1], key);
      var f := dir[|dir| - 1];
      if Contains(f.name, key) then rest + [f] else rest
  }

  /** Filtering a listing is filtering its parts: the kept files stay in listing order. */
  lemma {:induction false} FilesWithKeyAppend(a: seq<DirEntry>, b: seq<DirEntry>, key: string)
    ensures FilesWithKey(a + b, key) == FilesWithKey(a, key) + FilesWithKey(b, key)
  {
    if b == [] {
      assert a + b == a;
    } else {
      var b' := b[..|b| - 1];
      var f := b[|b| - 1];
      var x := if Contains(f.name, key) then [f] else [];
      calc {
        FilesWithKey(a + b, key);
      == { DropLastAppend(a, b); FilesWithKeyStep(a + b, key); }
        FilesWithKey(a + b', key) + x;
      == { FilesWithKeyAppend(a, b', key); }
        FilesWithKey(a, key) + FilesWithKey(b', key) + x;
      == { assert FilesWithKey(a, key) + FilesWithKey(b', key) + x == FilesWithKey(a, key) + (FilesWithKey(b', key) + x); }
        FilesWithKey(a, key) + (FilesWithKey(b', key) + x);
      == { FilesWithKeyStep(b, key); }
        FilesWithKey(a, key) + FilesWithKey(b, key);
      }
    }
  }

  /** The last file of a listing is kept after the others exactly when its name contains the key. */
  lemma FilesWithKeyStep(dir: seq<DirEntry>, key: string)
    requires dir != []
    ensures var f := dir[|dir| - 1];
      FilesWithKey(dir, key) == FilesWithKey(dir[..|dir| - 1], key) + (if Contains(f.name, key) then [f] else [])
  {
  }

  /** A listing of one file keeps it exactly when its name contains the key. */
  lemma FilesWithKeyOne(f: DirEntry, key: string)
    ensures FilesWithKey([f], key) == if Contains(f.name, key) then [f] else []
  {
    assert [f][..0] == [];
  }

  /** What process_general_log_files returns. */
  datatype Aggregate = Aggregate(alert: string, heartbeat: string, alarm: string, newest: int)

  /** One file's part of the aggregated text: its server label and its text, or nothing. */
  function Section(server: string, text: string): string
  {
    if text != "" then server + ":\n" + text + "\n\n" else ""
  }

  /** One file of the loop: load_logs_into_dict, then check_values from the given cursor. */
  function FileScan(c: Codec, f: DirEntry, cursor: int, words: seq<string>): Result<ScanOut>
  {
    var data :- Read(f.content);
    Scan(c, data, cursor, words)
  }

  /** process_general_log_files: every file is scanned from the same cursor, the cursors are maxed. */
  function Process(c: Codec, files: seq<DirEntry>, cursor: int, words: seq<string>): Result<Aggregate>
  {
    if files == [] then Ok(Aggregate("", "", "", cursor))
    else
      var prev :- Process(c, files[..|files| - 1], cursor, words);
      var f := files[|files| - 1];
      var out :- FileScan(c, f, cursor, words);
      Ok(Add(prev, ServerLabel(f.name), out))
  }

  /** Folding one file's scan into the aggregate. */
  function Add(prev: Aggregate, server: string, out: ScanOut): (a: Aggregate)
    ensures a.alert == "" && a.newest == Max(prev.newest, out.newest)
  {
    Aggregate("", prev.heartbeat + Section(server, out.heartbeat),
              prev.alarm + Section(server, out.alarm), Max(prev.newest, out.newest))
  }

  /** The cursor a file's scan returns, when it succeeds. */
  function FileNewest(c: Codec, f: DirEntry, cursor: int, words: seq<string>): Option<int>
  {
    match FileScan(c, f, cursor, words)
    case Ok(out) => Some(out.newest)
    case Err(_) => None
  }

  /**
   * The aggregated cursor is never below the given one and at least every file's scan
   * cursor, each file being scanned from the same starting cursor; the alert text is empty.
   */
  lemma ProcessCursor(c: Codec, files: seq<DirEntry>, cursor: int, words: seq<string>)
    requires Process(c, files, cursor, words).Ok?
    ensures var a := Process(c, files, cursor, words).value;
      a.alert == "" && a.newest >= cursor
      && (forall i :: 0 <= i < |files| ==>
            FileScan(c, files[i], cursor, words).Ok? && FileScan(c, files[i], cursor, words).value.newest <= a.newest)
  {
    ProcessFloor(c, files, cursor, words);
    forall i | 0 <= i < |files|
      ensures FileScan(c, files[i], cursor, words).Ok?
      ensures FileScan(c, files[i], cursor, words).value.newest <= Process(c, files, cursor, words).value.newest
    {
      ProcessFileBound(c, files, cursor, words, i);
    }
  }

  lemma {:induction false} ProcessFloor(c: Codec, files: seq<DirEntry>, cursor: int, words: seq<string>)
    requires Process(c, files, cursor, words).Ok?
    ensures Process(c, files, cursor, words).value.alert == ""
    ensures Process(c, files, cursor, words).value.newest >= cursor
  {
    if files != [] {
      ProcessFloor(c, files[..|files| - 1], cursor, words);
    }
  }

  lemma {:induction false} ProcessFileBound(c: Codec, files: seq<DirEntry>, cursor: int, words: seq<string>, i: nat)
    requires i < |files| && Process(c, files, cursor, words).Ok?
    ensures FileScan(c, files[i], cursor, words).Ok?
    ensures FileScan(c, files[i], cursor, words).value.newest <= Process(c, files, cursor, words).value.newest
    decreases |files|
  {
    var p := files[..|files| - 1];
    ProcessLast(c, files, cursor, words);
    if i < |p| {
      assert files[i] == p[i];
      ProcessFileBound(c, p, cursor, words, i);
    } else {
      assert i == |files| - 1;
    }
  }

  /** The last file's step of the aggregate. */
  lemma ProcessLast(c: Codec, files: seq<DirEntry>, cursor: int, words: seq<string>)
    requires files != [] && Process(c, files, cursor, words).Ok?
    ensures var p := files[..|files| - 1];
      Process(c, p, cursor, words).Ok? && FileScan(c, files[|files| - 1], cursor, words).Ok?
      && Process(c, files, cursor, words).value.alert == ""
      && Process(c, files, cursor, words).value.newest
         == Max(Process(c, p, cursor, words).value.newest, FileScan(c, files[|files| - 1], cursor, words).value.newest)
  {
  }

  /** The aggregated cursor is the given one or the cursor of one of the files: it is their maximum. */
  lemma {:induction false} ProcessAttained(c: Codec, files: seq<DirEntry>, cursor: int, words: seq<string>)
    requires Process(c, files, cursor, words).Ok?
    ensures var n := Process(c, files, cursor, words).value.newest;
      n == cursor || exists i :: 0 <= i < |files| && FileNewest(c, files[i], cursor, words) == Some(n)
  {
    if files != [] {
      var p := files[..|files| - 1];
      ProcessAttained(c, p, cursor, words);
      var np := Process(c, p, cursor, words).value.newest;
      if np != cursor {
        var i :| 0 <= i < |p| && FileNewest(c, p[i], cursor, words) == Some(np);
        assert files[i] == p[i];
      }
    }
  }

  /** One iteration's load and scan. */
  method ScanFile(c: Codec, f: DirEntry, cursor: int, words: seq<string>) returns (r: Result<ScanOut>)
    ensures r == FileScan(c, f, cursor, words)
  {
    var data :- Read(f.content);
    r := CheckValues(c, data, cursor, words);
  }

  /** process_general_log_files: the loop over the files. */
  method ProcessGeneralLogFiles(c: Codec, files: seq<DirEntry>, cursor: int, words: seq<string>)
    returns (r: Result<Aggregate>)
    ensures r == Process(c, files, cursor, words)
  {
    var heartbeat := "";
    var alarm := "";
    var outer := cursor;
    var i := 0;
    while i < |files|
      invariant 0 <= i <= |files|
      invariant Process(c, files[..i], cursor, words) == Ok(Aggregate("", heartbeat, alarm, outer))
    {
      var out := ScanFile(c, files[i], cursor, words);
      if out.Err? {
        ProcessStops(c, files, cursor, words, i);
        return Err(out.fault);
      }
      ghost var prev := Aggregate("", heartbeat, alarm, outer);
      var server := ServerLabel(files[i].name);
      if out.value.heartbeat != "" {
        heartbeat := heartbeat + (server + ":\n" + out.value.heartbeat + "\n\n");
      }
      if out.value.alarm != "" {
        alarm := alarm + (server + ":\n" + out.value.alarm + "\n\n");
      }
      if out.value.newest > outer {
        outer := out.value.newest;
      }
      assert Aggregate("", heartbeat, alarm, outer) == Add(prev, server, out.value);
      assert files[..i + 1][..i] == files[..i];
      i := i + 1;
    }
    assert files[..i] == files;
    return Ok(Aggregate("", heartbeat, alarm, outer));
  }

  /** When the loop stops at file i, the aggregate fails with that file's fault. */
  lemma {:induction false} ProcessStops(c: Codec, files: seq<DirEntry>, cursor: int, words: seq<string>, i: nat)
    requires i < |files| && Process(c, files[..i], cursor, words).Ok?
    requires FileScan(c, files[i], cursor, words).Err?
    ensures Process(c, files, cursor, words) == Err(FileScan(c, files[i], cursor, words).fault)
    decreases |files|
  {
    var p := files[..|files| - 1];
    if i == |files| - 1 {
      assert p == files[..i];
    } else {
      assert p[..i] == files[..i];
      ProcessStops(c, p, cursor, words, i);
    }
  }
}
