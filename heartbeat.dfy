/**
 * The heartbeat gate: a table of when a heartbeat of each kind was last sent, and a wait
 * period per kind. Alarm text always goes out; heartbeat text at most once per period.
 * Times here are whole seconds, as `int(time.time())` gives them.
 */
module Heartbeat {
  import opened Results
  import opened Text

  /** The wait period of a kind the configuration does not mention: one day. */
  const DefaultWait: int := 86_400

  datatype Chat = AlarmChat | HeartbeatChat

  /** A message handed to the chat service. */
  datatype Message = Message(chat: Chat, text: string)

  /** `wait.get(kind, 24 * 3600)`. */
  function WaitFor(wait: map<string, int>, kind: string): int
  {
    if kind in wait then wait[kind] else DefaultWait
  }

  /** What print_to_heartbeat_chat sends: nothing for blank text, the text otherwise. */
  function HeartbeatSend(text: string): (sent: seq<Message>)
    ensures |sent| <= 1
    ensures sent == [] <==> IsBlank(text)
    ensures forall m :: m in sent ==> m.chat == HeartbeatChat && m.text == text
  {
    if IsBlank(text) then [] else [Message(HeartbeatChat, text)]
  }

  /** Alarm text goes to the alarm chat when it is non-empty. */
  function AlarmSend(text: string): (sent: seq<Message>)
    ensures sent == [] <==> text == ""
    ensures forall m :: m in sent ==> m.chat == AlarmChat && m.text == text
  {
    if |text| > 0 then [Message(AlarmChat, text)] else []
  }

  /** A heartbeat of this kind may go out at `now`: strictly more than the wait has passed. */
  predicate Due(last: map<string, int>, wait: map<string, int>, kind: string, now: int)
    requires kind in last
  {
    last[kind] + WaitFor(wait, kind) < now
  }

  /** The new last-sent table and the messages sent by one call of the gate. */
  datatype Decision = Decision(last: map<string, int>, sent: seq<Message>)

  /** send_heartbeat_and_alarm_messages as a function of the table. */
  function Gate(last: map<string, int>, wait: map<string, int>, heartbeat: string, alarm: string,
                kind: string, now: int): (r: Result<Decision>)
    ensures r.Err? <==> |heartbeat| > 0 && kind !in last
    ensures r.Err? ==> r.fault == MissingKey(kind)
  {
    if |heartbeat| > 0 && kind !in last then Err(MissingKey(kind))
    else
      var due := |heartbeat| > 0 && Due(last, wait, kind, now);
      Ok(Decision(if due then last[kind := now] else last,
                  (if due then HeartbeatSend(heartbeat) else []) + AlarmSend(alarm)))
  }

  /**
   * The gate changes at most the entry of its own kind, and that one to `now` exactly when a
   * heartbeat was due; alarm text is sent whenever it is non-empty, and heartbeat text only
   * when it is non-empty and due.
   */
  lemma GateSpec(last: map<string, int>, wait: map<string, int>, heartbeat: string, alarm: string,
                 kind: string, now: int)
    requires Gate(last, wait, heartbeat, alarm, kind, now).Ok?
    ensures var d := Gate(last, wait, heartbeat, alarm, kind, now).value;
      var due := |heartbeat| > 0 && Due(last, wait, kind, now);
      d.last.Keys == last.Keys
      && (forall k :: k in last && k != kind ==> d.last[k] == last[k])
      && (kind in last ==> d.last[kind] == if due then now else last[kind])
      && (Message(AlarmChat, alarm) in d.sent <==> alarm != "")
      && (Message(HeartbeatChat, heartbeat) in d.sent <==> due && !IsBlank(heartbeat))
      && (forall m :: m in d.sent ==> m == Message(AlarmChat, alarm) || m == Message(HeartbeatChat, heartbeat))
  {
    var d := Gate(last, wait, heartbeat, alarm, kind, now).value;
    var due := |heartbeat| > 0 && Due(last, wait, kind, now);
    assert d.sent == (if due then HeartbeatSend(heartbeat) else []) + AlarmSend(alarm);
  }

  /**
   * Throttling: once a heartbeat of a kind went out at `now`, no heartbeat of that kind goes
   * out again until strictly more than its wait period has passed.
   */
  lemma AtMostOncePerPeriod(last: map<string, int>, wait: map<string, int>, heartbeat: string,
                            kind: string, now: int, later: string, alarm: string, next: int)
    requires Gate(last, wait, heartbeat, "", kind, now).Ok?
    requires HeartbeatSend(heartbeat) != [] && |heartbeat| > 0 && kind in last && Due(last, wait, kind, now)
    requires next <= now + WaitFor(wait, kind)
    ensures var d := Gate(last, wait, heartbeat, "", kind, now).value;
      Gate(d.last, wait, later, alarm, kind, next).Ok?
      && Gate(d.last, wait, later, alarm, kind, next).value.last == d.last
      && Gate(d.last, wait, later, alarm, kind, next).value.sent == AlarmSend(alarm)
  {
  }

  /** With a twenty-second wait: sent ten seconds ago is closed, sent thirty seconds ago is open. */
  lemma GateExample(now: int)
    ensures Gate(map["general_logs" := now - 10], map["general_logs" := 20], "beat", "", "general_logs", now)
              == Ok(Decision(map["general_logs" := now - 10], []))
    ensures Gate(map["general_logs" := now - 30], map["general_logs" := 20], "beat", "", "general_logs", now)
              == Ok(Decision(map["general_logs" := now], [Message(HeartbeatChat, "beat")]))
  {
    var w := map["general_logs" := 20];
    var closed := map["general_logs" := now - 10];
    assert !Due(closed, w, "general_logs", now);
    var g := Gate(closed, w, "beat", "", "general_logs", now);
    assert g.value.sent == [];
    var open := map["general_logs" := now - 30];
    assert Due(open, w, "general_logs", now);
    assert !IsBlank("beat") by { assert !IsSpace("beat"[0]); }
    var h := Gate(open, w, "beat", "", "general_logs", now);
    assert h.value.last == map["general_logs" := now];
    assert h.value.sent == [Message(HeartbeatChat, "beat")];
  }

  /**
   * The heartbeat table and every message sent, in order. The table starts with one entry
   * per configured kind, all at the start time.
   */
  class Throttle {
    var last: map<string, int>
    const wait: map<string, int>
    ghost var outbox: seq<Message>

    constructor(wait: map<string, int>, start: int)
      ensures this.wait == wait && outbox == []
      ensures last.Keys == wait.Keys && forall k :: k in last ==> last[k] == start
    {
      this.wait := wait;
      last := map k | k in wait :: start;
      outbox := [];
    }

    /** print_to_heartbeat_chat: blank text (empty or whitespace only) is not sent. */
    method PrintToHeartbeatChat(text: string)
      modifies this`outbox
      ensures outbox == old(outbox) + HeartbeatSend(text)
    {
      StripBlank(text);
      if text == "" || Strip(text) == "" {
        return;
      }
      outbox := outbox + [Message(HeartbeatChat, text)];
    }

    /** Sends alarm text to the alarm chat. */
    method SendAlarm(text: string)
      requires text != ""
      modifies this`outbox
      ensures outbox == old(outbox) + [Message(AlarmChat, text)]
    {
      outbox := outbox + [Message(AlarmChat, text)];
    }

    /**
     * send_heartbeat_and_alarm_messages. A kind missing from the table raises KeyError
     * when there is heartbeat text, and then nothing is sent.
     */
    method SendHeartbeatAndAlarm(heartbeat: string, alarm: string, kind: string, now: int)
      returns (r: Result<()>)
      modifies this`last, this`outbox
      ensures var g := Gate(old(last), wait, heartbeat, alarm, kind, now);
        (g.Err? ==> r == Err(g.fault) && last == old(last) && outbox == old(outbox))
        && (g.Ok? ==> r == Ok(()) && last == g.value.last && outbox == old(outbox) + g.value.sent)
    {
      if |heartbeat| > 0 {
        if kind !in last {
          return Err(MissingKey(kind));
        }
        if last[kind] + WaitFor(wait, kind) < now {
          PrintToHeartbeatChat(heartbeat);
          last := last[kind := now];
        }
      }
      if |alarm| > 0 {
        SendAlarm(alarm);
      }
      return Ok(());
    }
  }
}
