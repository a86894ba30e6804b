/**
 * The monitor's scheduled checks and admin commands over its mutable state: the
 * general-log cursor, the health cursor and the heartbeat table with its outbox.
 */
module Monitor {
  import opened Results
  import opened Text
  import opened Formats
  import opened LogStore
  import opened GeneralLogs
  import opened Heartbeat
  import opened Health
  import opened Daily

  /** The part of a file name that marks it as a general log, and that check's heartbeat kind. */
  const GeneralKey: string := "general_logs"

  /** The heartbeat kind of the system-health check. */
  const HealthKind: string := "server_health_logs"

  /** The heartbeat kind of the daily checks. */
  const DailyKind: string := "daily_checks"

  const NoGeneralLogs: string := "no general_logs logs found\n"
  const NoHealthLogsText: string := "no health_logs logs found\n"

  /** One alarm-chat message per piece of an alert. */
  function ChunkMessages(chunks: seq<string>): seq<Message>
  {
    if chunks == [] then []
    else ChunkMessages(chunks[..|chunks| - 1]) + [Message(AlarmChat, chunks[|chunks| - 1])]
  }

  /** The messages for some pieces go to the alarm chat, each carrying its piece. */
  lemma {:induction false} ChunkMessagesSpec(chunks: seq<string>)
    ensures |ChunkMessages(chunks)| == |chunks|
    ensures forall i :: 0 <= i < |chunks| ==> ChunkMessages(chunks)[i] == Message(AlarmChat, chunks[i])
  {
    if chunks != [] {
      ChunkMessagesSpec(chunks[..|chunks| - 1]);
    }
  }

  /** Everything the alert loop of daily_checks sends, alert by alert and piece by piece. */
  function DailyAlarms(alerts: seq<string>): seq<Message>
  {
    if alerts == [] then []
    else DailyAlarms(alerts[..|alerts| - 1]) + ChunkMessages(Chunks(alerts[|alerts| - 1]))
  }

  /** Every message of the alert loop goes to the alarm chat, non-empty and at most 4000 characters long. */
  lemma {:induction false} DailyAlarmsBounded(alerts: seq<string>)
    ensures forall m :: m in DailyAlarms(alerts) ==> m.chat == AlarmChat && 0 < |m.text| <= ChunkSize
  {
    if alerts != [] {
      var p := alerts[..|alerts| - 1];
      var a := alerts[|alerts| - 1];
      DailyAlarmsBounded(p);
      ChunksSpec(a);
      ChunkMessagesSpec(Chunks(a));
      forall m | m in ChunkMessages(Chunks(a)) ensures m.chat == AlarmChat && 0 < |m.text| <= ChunkSize {
        var i :| 0 <= i < |Chunks(a)| && ChunkMessages(Chunks(a))[i] == m;
        assert Chunks(a)[i] in Chunks(a);
      }
    }
  }

  /** The texts of the alert loop's messages, joined, are the alerts joined: nothing is lost or repeated. */
  lemma {:induction false} DailyAlarmsComplete(alerts: seq<string>)
    ensures Texts(DailyAlarms(alerts)) == Joined(alerts)
  {
    if alerts != [] {
      var p := alerts[..|alerts| - 1];
      var a := alerts[|alerts| - 1];
      DailyAlarmsComplete(p);
      TextsAppend(DailyAlarms(p), ChunkMessages(Chunks(a)));
      ChunkTexts(Chunks(a));
      ChunksSpec(a);
    }
  }

  /** The texts of some messages, one after another. */
  function Texts(ms: seq<Message>): string
  {
    if ms == [] then "" else Texts(ms[..|ms| - 1]) + ms[|ms| - 1].text
  }

  /** Some alerts, one after another. */
  function Joined(alerts: seq<string>): string
  {
    if alerts == [] then "" else Joined(alerts[..|alerts| - 1]) + alerts[|alerts| - 1]
  }

  lemma {:induction false} TextsAppend(a: seq<Message>, b: seq<Message>)
    ensures Texts(a + b) == Texts(a) + Texts(b)
    decreases |b|
  {
    if b == [] {
      assert a + b == a;
    } else {
      var p := b[..|b| - 1];
      var x := b[|b| - 1];
      assert (a + b)[..|a + b| - 1] == a + p;
      assert (a + b)[|a + b| - 1] == x;
      assert Texts(a + b) == Texts(a + p) + x.text;
      assert Texts(b) == Texts(p) + x.text;
      TextsAppend(a, p);
    }
  }

  lemma {:induction false} ChunkTexts(chunks: seq<string>)
    ensures Texts(ChunkMessages(chunks)) == Concat(chunks)
    decreases |chunks|
  {
    if chunks != [] {
      var p := chunks[..|chunks| - 1];
      var x := chunks[|chunks| - 1];
      ChunkTexts(p);
      var ms := ChunkMessages(p) + [Message(AlarmChat, x)];
      assert ms[..|ms| - 1] == ChunkMessages(p);
      assert Texts(ChunkMessages(chunks)) == Concat(p) + x;
      ConcatAppend(p, x);
      assert p + [x] == chunks;
    }
  }

  lemma {:induction false} ConcatAppend(parts: seq<string>, x: string)
    ensures Concat(parts + [x]) == Concat(parts) + x
  {
    if parts == [] {
      assert [x][1..] == [];
    } else {
      assert (parts + [x])[1..] == parts[1..] + [x];
      ConcatAppend(parts[1..], x);
    }
  }

  /** The monitor's globals: the two cursors (microseconds) and the heartbeat table. */
  class Monitor {
    /** last_general_log_check_ts */
    var generalCursor: int
    /** last_check_timestamp */
    var healthCursor: int
    const throttle: Throttle

    /** Both cursors start at 0; the heartbeat table starts with every configured kind at `start`. */
    constructor(wait: map<string, int>, start: int)
      ensures generalCursor == 0 && healthCursor == 0
      ensures throttle.wait == wait && throttle.outbox == [] && throttle.last == map k | k in wait :: start
    {
      generalCursor := 0;
      healthCursor := 0;
      throttle := new Throttle(wait, start);
    }

    /**
     * check_general_logs: without general log files only the notice is returned. Otherwise
     * every file is scanned from the stored cursor, the cursor moves forward to the newest
     * record seen, and the texts go through the gate of kind "general_logs".
     */
    method CheckGeneralLogs(c: Codec, dir: seq<DirEntry>, now: int) returns (r: Result<string>)
      modifies this, throttle
      ensures healthCursor == old(healthCursor) && generalCursor >= old(generalCursor)
      ensures var files := FilesWithKey(dir, GeneralKey);
        var p := Process(c, files, old(generalCursor), AlarmWords);
        (files == [] ==> r == Ok(NoGeneralLogs) && generalCursor == old(generalCursor)
                         && throttle.last == old(throttle.last) && throttle.outbox == old(throttle.outbox))
        && (files != [] && p.Err? ==> r == Err(p.fault) && generalCursor == old(generalCursor)
                                      && throttle.last == old(throttle.last) && throttle.outbox == old(throttle.outbox))
        && (files != [] && p.Ok? ==>
              generalCursor == p.value.newest
              && var g := Gate(old(throttle.last), throttle.wait, p.value.heartbeat, p.value.alarm, GeneralKey, now);
                 (g.Err? ==> r == Err(g.fault) && throttle.last == old(throttle.last) && throttle.outbox == old(throttle.outbox))
                 && (g.Ok? ==> r == Ok("") && throttle.last == g.value.last && throttle.outbox == old(throttle.outbox) + g.value.sent))
    {
      var files := FilesWithKey(dir, GeneralKey);
      if files == [] {
        return Ok(NoGeneralLogs);
      }
      var a := ProcessGeneralLogFiles(c, files, generalCursor, AlarmWords);
      if a.Err? {
        return Err(a.fault);
      }
      ProcessFloor(c, files, generalCursor, AlarmWords);
      if a.value.newest > generalCursor {
        generalCursor := a.value.newest;
      }
      var sent := throttle.SendHeartbeatAndAlarm(a.value.heartbeat, a.value.alarm, GeneralKey, now);
      if sent.Err? {
        return Err(sent.fault);
      }
      return Ok(a.value.alert);
    }

    /**
     * check_system_health: without health log files only the notice is returned. Otherwise
     * the scan runs from the health cursor, which it never moves, and the heartbeat lines and
     * the alert text go through the gate of kind "server_health_logs".
     */
    method CheckSystemHealth(c: Codec, dir: seq<DirEntry>, nowMicros: int, now: int) returns (r: Result<Option<string>>)
      modifies throttle
      ensures var h := CheckHealth(c, dir, nowMicros, healthCursor, Thresholds);
        (h.Err? ==> r == Err(h.fault) && throttle.last == old(throttle.last) && throttle.outbox == old(throttle.outbox))
        && (h == Ok(NoHealthLogs) ==> r == Ok(Some(NoHealthLogsText))
                                      && throttle.last == old(throttle.last) && throttle.outbox == old(throttle.outbox))
        && (h.Ok? && h.value.Checked? ==>
              var g := Gate(old(throttle.last), throttle.wait, h.value.heartbeat, h.value.alert, HealthKind, now);
              (g.Err? ==> r == Err(g.fault) && throttle.last == old(throttle.last) && throttle.outbox == old(throttle.outbox))
              && (g.Ok? ==> r == Ok(None) && throttle.last == g.value.last && throttle.outbox == old(throttle.outbox) + g.value.sent))
    {
      var files := FilesWithKey(dir, HealthKey);
      if files == [] {
        return Ok(Some(NoHealthLogsText));
      }
      var acc := CheckHealthFiles(c, files, nowMicros, healthCursor, Thresholds);
      if acc.Err? {
        return Err(acc.fault);
      }
      var alert := AppendReport(c, acc.value.alert, acc.value.records, Thresholds);
      var sent := throttle.SendHeartbeatAndAlarm(acc.value.heartbeat, alert, HealthKind, now);
      if sent.Err? {
        return Err(sent.fault);
      }
      return Ok(None);
    }

    /** /reset: the health cursor goes back to 0, so every record is checked again. */
    method Reset()
      modifies this, throttle`outbox
      ensures healthCursor == 0 && generalCursor == old(generalCursor)
      ensures throttle.outbox == old(throttle.outbox) + [Message(AlarmChat, "Resetting checked timestamp to 0")]
    {
      healthCursor := 0;
      throttle.SendAlarm("Resetting checked timestamp to 0");
    }

    /** /move_to_end: the health cursor moves to now, so only later records are checked. */
    method MoveToEnd(nowMicros: int)
      modifies this, throttle`outbox
      ensures healthCursor == nowMicros && generalCursor == old(generalCursor)
      ensures throttle.outbox == old(throttle.outbox) + [Message(AlarmChat, "Resetting checked timestamp to end")]
    {
      healthCursor := nowMicros;
      throttle.SendAlarm("Resetting checked timestamp to end");
    }

    /**
     * daily_checks, given what the daily module returned: every alert goes to the alarm chat
     * in pieces; then, with no check that there is heartbeat text, the daily kind's entry is
     * read (a KeyError when it is not configured) and, when due, both heartbeat texts go out
     * and the entry is set to now.
     */
    method DailyChecks(alerts: seq<string>, beats: seq<string>, now: int) returns (r: Result<()>)
      modifies throttle`outbox, throttle`last
      ensures DailyKind !in old(throttle.last) ==>
                r == Err(MissingKey(DailyKind)) && throttle.last == old(throttle.last)
                && throttle.outbox == old(throttle.outbox) + DailyAlarms(alerts)
      ensures DailyKind in old(throttle.last) ==>
                var due := Due(old(throttle.last), throttle.wait, DailyKind, now);
                r == Ok(())
                && throttle.last == (if due then old(throttle.last)[DailyKind := now] else old(throttle.last))
                && throttle.outbox == old(throttle.outbox) + DailyAlarms(alerts)
                     + (if due then [Message(HeartbeatChat, FinishedText), Message(HeartbeatChat, CustomText(beats))] else [])
    {
      SendAlerts(alerts);
      if DailyKind !in throttle.last {
        return Err(MissingKey(DailyKind));
      }
      if throttle.last[DailyKind] + WaitFor(throttle.wait, DailyKind) < now {
        FinishedNotBlank();
        throttle.PrintToHeartbeatChat(FinishedText);
        throttle.last := throttle.last[DailyKind := now];
        throttle.PrintToHeartbeatChat(CustomText(beats));
        throttle.last := throttle.last[DailyKind := now];
      }
      return Ok(());
    }

    /** The alert loop of daily_checks: each alert cut into pieces, each piece sent to the alarm chat. */
    method SendAlerts(alerts: seq<string>)
      modifies throttle`outbox
      ensures throttle.outbox == old(throttle.outbox) + DailyAlarms(alerts)
    {
      for i := 0 to |alerts|
        invariant throttle.outbox == old(throttle.outbox) + DailyAlarms(alerts[..i])
      {
        assert alerts[..i + 1][..i] == alerts[..i];
        SendAlert(alerts[i]);
      }
      assert alerts[..|alerts|] == alerts;
    }

    /** One alert of the loop: its pieces, in order, to the alarm chat. */
    method SendAlert(alert: string)
      modifies throttle`outbox
      ensures throttle.outbox == old(throttle.outbox) + ChunkMessages(Chunks(alert))
    {
      var chunks := ChunkAlert(alert);
      ChunksSpec(alert);
      forall i | 0 <= i < |chunks| ensures chunks[i] != "" {
        assert chunks[i] in chunks;
      }
      SendChunks(chunks);
    }

    /** The pieces of one alert, in order, each to the alarm chat. */
    method SendChunks(chunks: seq<string>)
      requires forall i :: 0 <= i < |chunks| ==> chunks[i] != ""
      modifies throttle`outbox
      ensures throttle.outbox == old(throttle.outbox) + ChunkMessages(chunks)
    {
      for j := 0 to |chunks|
        invariant throttle.outbox == old(throttle.outbox) + ChunkMessages(chunks[..j])
      {
        throttle.SendAlarm(chunks[j]);
        assert chunks[..j + 1][..j] == chunks[..j];
      }
      assert chunks[..|chunks|] == chunks;
    }
  }
}
