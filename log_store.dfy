/**
 * The JSON log files: a top-level object from timestamp keys to records, kept in file
 * order. Reading, appending a record and pruning old records.
 */
module LogStore {
  import opened Results
  import opened Dicts
  import opened Json
  import opened Formats

  /** The contents of a log file: timestamp key to record, in file order. */
  type Entries = seq<(string, Json)>

  const DayMicros: int := 86_400 * SecondMicros

  /** LOG_LIFE when the environment does not set it, in days. */
  const DefaultLogLife: int := 3

  /** What is on disk at a log path. */
  datatype FileState =
    | Absent                     // no file yet
    | Blank                      // an empty file
    | Malformed(reason: string)  // text that is not JSON, with the decoder's message
    | NotObject                  // JSON whose top level is not an object (a list, a string, ...)
    | Doc(entries: Entries)

  /**
   * One file of a log directory, as listed: the directory it is listed in, its name,
   * modification time and contents.
   */
  datatype DirEntry = DirEntry(dir: string, name: string, mtime: int, content: FileState)

  /** `os.path.join(dir, name)` for a bare file name: one `/` between them, none added after `/` or to an empty directory. */
  function JoinPath(dir: string, name: string): (r: string)
    ensures |r| >= |dir| + |name| && r[..|dir|] == dir && r[|r| - |name|..] == name
    ensures |r| == |dir| + |name| <==> dir == [] || dir[|dir| - 1] == '/'
  {
    if dir == [] || dir[|dir| - 1] == '/' then dir + name else dir + "/" + name
  }

  /** What load_logs_into_dict returns for a file in a given state (after creating a missing one). */
  function Read(f: FileState): (r: Result<Entries>)
    ensures r.Err? <==> f.Malformed? || f.NotObject?
    ensures f.Malformed? ==> r.Err? && r.fault == MalformedJson
    ensures f.NotObject? ==> r.Err? && r.fault == NotAMapping
    ensures f.Absent? || f.Blank? ==> r == Ok([])
  {
    match f
    case Absent => Ok([])
    case Blank => Ok([])
    case Malformed(_) => Err(MalformedJson)
    case NotObject => Err(NotAMapping)
    case Doc(e) => Ok(e)
  }

  /** check_log_file: a missing file is created holding `{}`; any other state is left alone. */
  function Created(f: FileState): (g: FileState)
    ensures Read(g) == Read(f)
    ensures !g.Absent?
  {
    if f.Absent? then Doc([]) else f
  }

  /** What log_to_bot is given. */
  datatype Payload =
    | DictPayload(fields: seq<(string, Json)>)
    | TextPayload(text: string)
    | OtherPayload

  /** The record a string that is not JSON becomes. */
  function GeneralRecord(text: string): Json
  {
    JObj([("general", JStr(text))])
  }

  /** process_input_data: a dict as it is, a JSON string decoded, any other string under "general". */
  function ProcessInputData(c: Codec, input: Payload): (r: Result<Json>)
    ensures r.Err? <==> input.OtherPayload?
    ensures r.Err? ==> r.fault == UnsupportedPayload
    ensures input.DictPayload? ==> r == Ok(JObj(input.fields))
    ensures input.TextPayload? && c.decode(input.text).None? ==> r == Ok(GeneralRecord(input.text))
    ensures input.TextPayload? && c.decode(input.text).Some? ==> r == Ok(c.decode(input.text).value)
  {
    match input
    case DictPayload(fields) => Ok(JObj(fields))
    case TextPayload(text) =>
      (match c.decode(text)
       case Some(v) => Ok(v)
       case None => Ok(GeneralRecord(text)))
    case OtherPayload => Err(UnsupportedPayload)
  }

  /** The oldest time a prune keeps: `days` days before `now`. */
  function Cutoff(now: int, days: int): int
  {
    now - days * DayMicros
  }

  /** The keys the first loop of delete_entries_older_than_x_days collects, or its first error. */
  function Expired(c: Codec, cutoff: int, d: Entries): Result<seq<string>>
  {
    if d == [] then Ok([])
    else
      var ks :- Expired(c, cutoff, d[..|d| - 1]);
      var key := d[|d| - 1].0;
      match ParseForPrune(c, key)
      case None => Err(BadTimestamp(key))
      case Some(t) => Ok(if Below(t, cutoff) then ks + [key] else ks)
  }

  /** What a prune leaves: the entries whose key reads as a time not before the cutoff. */
  function Pruned(c: Codec, cutoff: int, d: Entries): Result<Entries>
  {
    if d == [] then Ok([])
    else
      var kept :- Pruned(c, cutoff, d[..|d| - 1]);
      var e := d[|d| - 1];
      match ParseForPrune(c, e.0)
      case None => Err(BadTimestamp(e.0))
      case Some(t) => Ok(if !Below(t, cutoff) then kept + [e] else kept)
  }

  /** The key reads as a time that is not before the cutoff. */
  predicate Fresh(c: Codec, cutoff: int, key: string)
  {
    ParseForPrune(c, key).Some? && !Below(ParseForPrune(c, key).value, cutoff)
  }

  /**
   * float() accepts "inf", "-inf" and "nan": a key read as +inf or NaN is kept by every
   * prune (NaN is not below any cutoff), one read as -inf by none.
   */
  lemma NonFiniteKeys(c: Codec, cutoff: int, key: string)
    ensures c.number(key) == Some(PosInf) || c.number(key) == Some(NaN) ==> Fresh(c, cutoff, key)
    ensures c.number(key) == Some(NegInf) ==> !Fresh(c, cutoff, key)
  {
  }

  /** Some key of the store reads as no time at all. */
  predicate HasUnreadableKey(c: Codec, d: Entries)
  {
    exists i :: 0 <= i < |d| && ParseForPrune(c, d[i].0).None?
  }

  function SetOf(s: seq<string>): set<string>
  {
    set x | x in s
  }

  /** One more key of the list, one more key of the set. */
  lemma SetOfStep(s: seq<string>, j: nat)
    requires j < |s|
    ensures SetOf(s[..j + 1]) == SetOf(s[..j]) + {s[j]}
  {
    assert s[..j + 1] == s[..j] + [s[j]];
  }

  /** A prune fails exactly when some key is unreadable; the error names the first such key. */
  lemma {:induction false} PrunedFails(c: Codec, cutoff: int, d: Entries)
    ensures Pruned(c, cutoff, d).Err? <==> HasUnreadableKey(c, d)
    ensures Pruned(c, cutoff, d).Err? ==>
              exists i :: 0 <= i < |d| && ParseForPrune(c, d[i].0).None?
                && Pruned(c, cutoff, d).fault == BadTimestamp(d[i].0)
                && forall j :: 0 <= j < i ==> ParseForPrune(c, d[j].0).Some?
  {
    if d != [] {
      var p := d[..|d| - 1];
      PrunedFails(c, cutoff, p);
      assert forall j :: 0 <= j < |p| ==> d[j] == p[j];
      if Pruned(c, cutoff, p).Err? {
        var i :| 0 <= i < |p| && ParseForPrune(c, p[i].0).None?
                 && Pruned(c, cutoff, p).fault == BadTimestamp(p[i].0)
                 && forall j :: 0 <= j < i ==> ParseForPrune(c, p[j].0).Some?;
        assert ParseForPrune(c, d[i].0).None?;
      } else if ParseForPrune(c, d[|p|].0).None? {
        assert forall j :: 0 <= j < |p| ==> ParseForPrune(c, d[j].0).Some?;
      }
    }
  }

  /**
   * The two loops of the prune agree with the specification: deleting the collected keys
   * one by one leaves exactly the entries Pruned keeps, and both fail on the same key.
   */
  lemma {:induction false} ExpiredPruned(c: Codec, cutoff: int, d: Entries)
    requires Distinct(d)
    ensures Expired(c, cutoff, d).Err? == Pruned(c, cutoff, d).Err?
    ensures Expired(c, cutoff, d).Err? ==> Expired(c, cutoff, d).fault == Pruned(c, cutoff, d).fault
    ensures Expired(c, cutoff, d).Ok? ==>
              Pruned(c, cutoff, d).value == Without(d, SetOf(Expired(c, cutoff, d).value))
  {
    if d != [] {
      var p := d[..|d| - 1];
      var e := d[|d| - 1];
      assert Distinct(p);
      ExpiredPruned(c, cutoff, p);
      var x := Expired(c, cutoff, d);
      var xp := Expired(c, cutoff, p);
      if x.Ok? && xp.Ok? {
        ExpiredKeys(c, cutoff, p);
        var s := SetOf(x.value);
        var sp := SetOf(xp.value);
        assert forall i :: 0 <= i < |p| ==> p[i].0 != e.0 by {
          forall i | 0 <= i < |p| ensures p[i].0 != e.0 {
            assert p[i] == d[i];
          }
        }
        forall i | 0 <= i < |p| ensures p[i].0 in sp <==> p[i].0 in s {
          assert p[i].0 != e.0;
        }
        WithoutAgree(p, sp, s);
      }
    }
  }

  /** Every collected key is a key of the store. */
  lemma {:induction false} ExpiredKeys(c: Codec, cutoff: int, d: Entries)
    requires Expired(c, cutoff, d).Ok?
    ensures forall k :: k in Expired(c, cutoff, d).value ==> k in Keys(d)
  {
    if d != [] {
      var p := d[..|d| - 1];
      ExpiredKeys(c, cutoff, p);
      assert Keys(d) == Keys(p) + [d[|d| - 1].0];
    }
  }

  /** The keys of the store that are not fresh. */
  function StaleKeys(c: Codec, cutoff: int, d: Entries): set<string>
  {
    set i | 0 <= i < |d| && !Fresh(c, cutoff, d[i].0) :: d[i].0
  }

  /**
   * A successful prune keeps exactly the entries whose keys are fresh, with their values:
   * it is the store with its stale keys dropped, the survivors in their file order.
   */
  lemma {:induction false} PrunedSpec(c: Codec, cutoff: int, d: Entries)
    requires Pruned(c, cutoff, d).Ok?
    ensures var r := Pruned(c, cutoff, d).value;
      |r| <= |d|
      && (forall x :: x in r <==> x in d && Fresh(c, cutoff, x.0))
      && r == Without(d, StaleKeys(c, cutoff, d))
  {
    if d != [] {
      var p := d[..|d| - 1];
      var e := d[|d| - 1];
      PrunedSpec(c, cutoff, p);
      assert d == p + [e];
      StaleKeysStep(c, cutoff, d);
      WithoutAgree(p, StaleKeys(c, cutoff, d), StaleKeys(c, cutoff, p));
    }
  }

  /** The stale keys of a store, seen from all but its last entry, and its last entry. */
  lemma StaleKeysStep(c: Codec, cutoff: int, d: Entries)
    requires d != []
    ensures var p := d[..|d| - 1];
      forall i :: 0 <= i < |p| ==> (p[i].0 in StaleKeys(c, cutoff, d) <==> p[i].0 in StaleKeys(c, cutoff, p))
    ensures d[|d| - 1].0 in StaleKeys(c, cutoff, d) <==> !Fresh(c, cutoff, d[|d| - 1].0)
  {
    var p := d[..|d| - 1];
    var sd := StaleKeys(c, cutoff, d);
    var sp := StaleKeys(c, cutoff, p);
    forall i | 0 <= i < |p| ensures p[i].0 in sd <==> p[i].0 in sp {
      if p[i].0 in sd {
        var j :| 0 <= j < |d| && !Fresh(c, cutoff, d[j].0) && d[j].0 == p[i].0;
        assert !Fresh(c, cutoff, p[i].0);
      }
      if p[i].0 in sp {
        assert d[i] == p[i];
      }
    }
    var n := |d| - 1;
    if d[n].0 in sd {
      var j :| 0 <= j < |d| && !Fresh(c, cutoff, d[j].0) && d[j].0 == d[n].0;
    }
  }

  /** Keyed view of PrunedSpec: the mapping loses exactly the stale keys. */
  lemma PrunedMap(c: Codec, cutoff: int, d: Entries, k: string)
    requires Distinct(d) && Pruned(c, cutoff, d).Ok?
    ensures var m := ToMap(Pruned(c, cutoff, d).value);
      (k in m <==> k in ToMap(d) && Fresh(c, cutoff, k))
      && (k in m ==> m[k] == ToMap(d)[k])
  {
    PrunedSpec(c, cutoff, d);
    PrunedDistinct(c, cutoff, d);
    FreshPartMap(c, cutoff, d, Pruned(c, cutoff, d).value, k);
  }

  /** A duplicate-free part of a store holding exactly its fresh entries maps exactly its fresh keys. */
  lemma FreshPartMap(c: Codec, cutoff: int, d: Entries, r: Entries, k: string)
    requires Distinct(d) && Distinct(r)
    requires forall x :: x in r <==> x in d && Fresh(c, cutoff, x.0)
    ensures var m := ToMap(r);
      (k in m <==> k in ToMap(d) && Fresh(c, cutoff, k))
      && (k in m ==> m[k] == ToMap(d)[k])
  {
    ToMapKey(d, k);
    ToMapKey(r, k);
    if k in Keys(r) {
      var j :| 0 <= j < |r| && Keys(r)[j] == k;
      assert r[j] in r;
      var i :| 0 <= i < |d| && d[i] == r[j];
      ToMapEntry(d, i);
      ToMapEntry(r, j);
      assert Keys(d)[i] == k;
    }
    if k in Keys(d) && Fresh(c, cutoff, k) {
      var i :| 0 <= i < |d| && Keys(d)[i] == k;
      assert d[i] in d;
      var j :| 0 <= j < |r| && r[j] == d[i];
      assert Keys(r)[j] == k;
    }
  }

  /** Pruning twice with the same cutoff changes nothing the second time. */
  lemma {:induction false} PrunedIdempotent(c: Codec, cutoff: int, d: Entries)
    requires Pruned(c, cutoff, d).Ok?
    ensures Pruned(c, cutoff, Pruned(c, cutoff, d).value) == Pruned(c, cutoff, d)
  {
    if d != [] {
      var p := d[..|d| - 1];
      var e := d[|d| - 1];
      PrunedIdempotent(c, cutoff, p);
      var kp := Pruned(c, cutoff, p).value;
      if Fresh(c, cutoff, e.0) {
        assert (kp + [e])[..|kp|] == kp;
      }
    }
  }

  /** A prune keeps a store without repeated keys so. */
  lemma PrunedDistinct(c: Codec, cutoff: int, d: Entries)
    requires Distinct(d) && Pruned(c, cutoff, d).Ok?
    ensures Distinct(Pruned(c, cutoff, d).value)
  {
    ExpiredPruned(c, cutoff, d);
    WithoutDistinct(d, SetOf(Expired(c, cutoff, d).value));
  }

  /** The outcome of delete_entries_older_than_x_days on a file in a given state. */
  function PruneFile(c: Codec, cutoff: int, f: FileState): Result<Entries>
  {
    var d :- Read(f);
    Pruned(c, cutoff, d)
  }

  /** One log file at a fixed path; `disk` is what the path holds. */
  class LogFile {
    const path: string
    var disk: FileState

    /** A file that decodes to an object has no repeated keys (the decoder keeps one pair per key). */
    ghost predicate Valid()
      reads this
    {
      disk.Doc? ==> Distinct(disk.entries)
    }

    constructor(path: string, disk: FileState)
      requires disk.Doc? ==> Distinct(disk.entries)
      ensures this.path == path && this.disk == disk && Valid()
    {
      this.path := path;
      this.disk := disk;
    }

    /** check_log_file: refuses an empty path, creates a missing file holding `{}`. */
    method CheckLogFile() returns (r: Result<()>)
      requires Valid()
      modifies this
      ensures Valid()
      ensures r.Err? <==> path == ""
      ensures r.Err? ==> r.fault == FalseyPath && disk == old(disk)
      ensures r.Ok? ==> disk == Created(old(disk))
    {
      if path == "" {
        return Err(FalseyPath);
      }
      if disk.Absent? {
        disk := Doc([]);
      }
      return Ok(());
    }

    /** load_logs_into_dict. */
    method Load() returns (r: Result<Entries>)
      requires Valid()
      modifies this
      ensures Valid()
      ensures path == "" ==> r == Err(FalseyPath) && disk == old(disk)
      ensures path != "" ==> r == Read(old(disk)) && disk == Created(old(disk))
      ensures r.Ok? ==> Distinct(r.value)
    {
      var _ :- CheckLogFile();
      r := Read(disk);
    }

    /** save_logs. */
    method Save(d: Entries) returns (r: Result<()>)
      requires Valid() && Distinct(d)
      modifies this
      ensures Valid()
      ensures path == "" ==> r == Err(FalseyPath) && disk == old(disk)
      ensures path != "" ==> r == Ok(()) && disk == Doc(d)
    {
      var _ :- CheckLogFile();
      disk := Doc(d);
      return Ok(());
    }

    /**
     * delete_entries_older_than_x_days: collect the keys older than the cutoff, delete them,
     * write the rest back. An unreadable file or key aborts before anything is written.
     */
    method Prune(c: Codec, now: int, days: int := DefaultLogLife) returns (r: Result<()>)
      requires Valid()
      modifies this
      ensures Valid()
      ensures path == "" ==> r == Err(FalseyPath) && disk == old(disk)
      ensures path != "" ==>
        var outcome := PruneFile(c, Cutoff(now, days), old(disk));
        (outcome.Err? ==> r == Err(outcome.fault) && disk == Created(old(disk)))
        && (outcome.Ok? ==> r == Ok(()) && disk == Doc(outcome.value))
    {
      var data :- Load();
      var cutoff := Cutoff(now, days);
      ExpiredPruned(c, cutoff, data);
      var toDelete :- CollectExpired(c, cutoff, data);
      var kept := DeleteAll(data, toDelete);
      WithoutDistinct(data, SetOf(toDelete));
      r := Save(kept);
    }

    /**
     * log_to_bot: the record is stored under the ISO stamp of `now`, replacing a record with
     * the same stamp in place; every other entry stays as it was, in its order.
     */
    method LogToBot(c: Codec, input: Payload, now: int) returns (r: Result<()>)
      requires Valid()
      modifies this
      ensures Valid()
      ensures input.OtherPayload? ==> r == Err(UnsupportedPayload) && disk == old(disk)
      ensures !input.OtherPayload? && path == "" ==> r == Err(FalseyPath) && disk == old(disk)
      ensures !input.OtherPayload? && path != "" && old(disk).Malformed? ==>
                r == Err(MalformedJson) && disk == old(disk)
      ensures !input.OtherPayload? && path != "" && old(disk).NotObject? ==>
                r == Err(NotAMapping) && disk == old(disk)
      ensures r.Ok? <==> !input.OtherPayload? && path != "" && !old(disk).Malformed? && !old(disk).NotObject?
      ensures r.Ok? ==>
        var before := Read(old(disk)).value;
        var stamp := c.isoFormat(now);
        disk.Doc? && Distinct(disk.entries)
        && ToMap(disk.entries) == ToMap(before)[stamp := ProcessInputData(c, input).value]
        && Keys(disk.entries) == if stamp in Keys(before) then Keys(before) else Keys(before) + [stamp]
    {
      var record :- ProcessInputData(c, input);
      var stamp := c.isoFormat(now);
      var total :- Load();
      PutProperties(total, stamp, record);
      r := Save(Put(total, stamp, record));
    }
  }

  /** The first loop of delete_entries_older_than_x_days: the keys older than the cutoff, in order. */
  method CollectExpired(c: Codec, cutoff: int, data: Entries) returns (r: Result<seq<string>>)
    ensures r == Expired(c, cutoff, data)
  {
    var toDelete: seq<string> := [];
    var i := 0;
    while i < |data|
      invariant 0 <= i <= |data|
      invariant Expired(c, cutoff, data[..i]) == Ok(toDelete)
    {
      assert data[..i + 1][..i] == data[..i];
      var key := data[i].0;
      match ParseForPrune(c, key)
      case None =>
        ExpiredStops(c, cutoff, data, i);
        return Err(BadTimestamp(key));
      case Some(t) =>
        if Below(t, cutoff) {
          toDelete := toDelete + [key];
        }
      i := i + 1;
    }
    assert data[..i] == data;
    return Ok(toDelete);
  }

  /** The second loop: `del data[key]` for every collected key. */
  method DeleteAll(data: Entries, toDelete: seq<string>) returns (kept: Entries)
    ensures kept == Without(data, SetOf(toDelete))
  {
    assert SetOf(toDelete[..0]) == {};
    WithoutNothing(data, {});
    kept := data;
    for j := 0 to |toDelete|
      invariant kept == Without(data, SetOf(toDelete[..j]))
    {
      RemoveAfterWithout(data, SetOf(toDelete[..j]), toDelete[j]);
      SetOfStep(toDelete, j);
      kept := Remove(kept, toDelete[j]);
    }
    assert toDelete[..|toDelete|] == toDelete;
  }

  /** When the first loop stops at position i, the specification fails on the same key. */
  lemma {:induction false} ExpiredStops(c: Codec, cutoff: int, d: Entries, i: nat)
    requires i < |d| && Expired(c, cutoff, d[..i]).Ok? && ParseForPrune(c, d[i].0).None?
    ensures Expired(c, cutoff, d) == Err(BadTimestamp(d[i].0))
    decreases |d|
  {
    var p := d[..|d| - 1];
    if i == |d| - 1 {
      assert p == d[..i];
    } else {
      assert p[..i] == d[..i];
      ExpiredStops(c, cutoff, p, i);
    }
  }
}
