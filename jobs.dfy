/**
 * The job switches behind /stop, /start and /sleep: four repeating jobs, each enabled or
 * not, and at most one pending wake-up that re-enables them after a sleep. Durations are
 * whole seconds.
 */
module Jobs {
  import opened Results
  import opened Text

  /** What a /stop command switches off. */
  datatype Scope = NonDaily | UpCheck | All

  /**
   * The words after "/stop" in the message text; none when the text has no "/stop", or
   * when the update has no `message` attribute (`None`).
   */
  function StopArgs(message: Option<string>): seq<string>
  {
    match message
    case Some(text) =>
      if Contains(text, "/stop") then
        SplitAtLeastTwo(text, "/stop");
        Split(Strip(Split(text, "/stop")[1]), " ")
      else []
    case None => []
  }

  /** "non-daily" wins over "up_check"; anything else stops everything. */
  function StopScope(args: seq<string>): Scope
  {
    if "non-daily" in args then NonDaily else if "up_check" in args then UpCheck else All
  }

  function StopReply(scope: Scope): string
  {
    match scope
    case NonDaily => "Stopping all non-daily logs"
    case UpCheck => "Stopping server-up checks."
    case All => "Stopping logs."
  }

  /** The enabled switches of the system-health, daily, server-up and general-log jobs. */
  datatype Flags = Flags(health: bool, daily: bool, upChecks: bool, general: bool)

  /**
   * The switches after a stop: "non-daily" turns off system health and up checks and
   * leaves the other two; "up_check" turns off up checks only; a full stop turns off all four.
   */
  function AfterStop(scope: Scope, before: Flags): Flags
  {
    match scope
    case NonDaily => before.(health := false, upChecks := false)
    case UpCheck => before.(upChecks := false)
    case All => Flags(false, false, false, false)
  }

  /** sleep_time hands its own update to stop_logs, so its text decides the scope too. */
  function SleepScope(text: string): Scope
  {
    StopScope(StopArgs(Some(text)))
  }

  /** A message that does not mention /stop (a /sleep command, say) stops every job. */
  lemma StopWithoutCommand(text: string)
    requires !Contains(text, "/stop")
    ensures StopScope(StopArgs(Some(text))) == All
  {
  }

  /** The units a sleep token may name, in seconds; time_dict in sleep_time. */
  const Units: map<string, nat> := map["s" := 1, "seconds" := 1, "m" := 60, "minutes" := 60,
                                       "h" := 3_600, "hours" := 3_600, "d" := 86_400, "days" := 86_400]

  /** The default sleep, one day, used when the tokens add up to nothing. */
  const DefaultSleep: nat := 86_400

  /** `time_dict.get(name, 0)`. */
  function UnitSeconds(name: string): nat
  {
    if name in Units then Units[name] else 0
  }

  /**
   * The seconds one token adds: nothing without an '='; a ValueError when splitting at '='
   * gives other than two pieces; otherwise unit times count, a count that is not all digits
   * counting as 0.
   */
  function TokenSeconds(token: string): Result<nat>
  {
    if !Contains(token, "=") then Ok(0)
    else
      var parts := Split(token, "=");
      if |parts| != 2 then Err(MalformedToken(token))
      else Ok(UnitSeconds(parts[0]) * (if IsDigits(parts[1]) then DecimalValue(parts[1]) else 0))
  }

  /** A token `name=count` with one '=' adds the unit's seconds times the count, or 0. */
  lemma TokenForm(name: string, count: string)
    requires '=' !in name && '=' !in count
    ensures TokenSeconds(name + "=" + count)
            == Ok(UnitSeconds(name) * (if IsDigits(count) then DecimalValue(count) else 0))
  {
    var token := name + "=" + count;
    assert "=" <= token[|name|..];
    ContainsAt(token, "=", |name|);
    SplitAtFirst(name, '=', count);
    SplitAbsent(count, '=');
  }

  /** A token with an unknown unit adds nothing. */
  lemma UnknownUnit(name: string, count: string)
    requires '=' !in name && '=' !in count && name !in Units
    ensures TokenSeconds(name + "=" + count) == Ok(0)
  {
    TokenForm(name, count);
  }

  /** A token with two or more '=' raises. */
  lemma TwoEquals(u: string, v: string, w: string)
    requires '=' !in u && '=' !in v
    ensures TokenSeconds(u + "=" + v + "=" + w).Err?
  {
    var token := u + "=" + v + "=" + w;
    assert "=" <= token[|u|..];
    ContainsAt(token, "=", |u|);
    assert token == u + "=" + (v + "=" + w);
    SplitAtFirst(u, '=', v + "=" + w);
    SplitAtFirst(v, '=', w);
  }

  lemma {:induction false} ContainsAt(s: string, sub: string, i: nat)
    requires i <= |s| && sub <= s[i..]
    ensures Contains(s, sub)
    decreases i
  {
    if i > 0 {
      assert s[1..][i - 1..] == s[i..];
      ContainsAt(s[1..], sub, i - 1);
    }
  }

  /** The token loop: the seconds of all tokens added up; the first malformed token raises. */
  function SleepTotal(tokens: seq<string>): Result<nat>
  {
    if tokens == [] then Ok(0)
    else
      var prev :- SleepTotal(tokens[..|tokens| - 1]);
      var more :- TokenSeconds(tokens[|tokens| - 1]);
      Ok(prev + more)
  }

  /** The total over two runs of tokens is the sum of their totals. */
  lemma {:induction false} SleepTotalAppend(a: seq<string>, b: seq<string>)
    requires SleepTotal(a).Ok? && SleepTotal(b).Ok?
    ensures SleepTotal(a + b).Ok? && SleepTotal(a + b).value == SleepTotal(a).value + SleepTotal(b).value
    decreases |b|
  {
    if b == [] {
      assert a + b == a;
    } else {
      var p := b[..|b| - 1];
      var last := SleepTotal([b[|b| - 1]]);
      DropLastAppend(a, b);
      SleepTotalLast(b);
      SleepTotalAppend(a, p);
      SleepTotalLast(a + b);
      assert SleepTotal(a + b).Ok?;
      assert SleepTotal(a + b).value == SleepTotal(a + p).value + last.value;
      assert SleepTotal(b).value == SleepTotal(p).value + last.value;
    }
  }

  /** The total of some tokens succeeds when the total without the last and the last's own do, and adds them. */
  lemma SleepTotalLast(tokens: seq<string>)
    requires tokens != []
    ensures var init := SleepTotal(tokens[..|tokens| - 1]);
      var last := SleepTotal([tokens[|tokens| - 1]]);
      (SleepTotal(tokens).Ok? <==> init.Ok? && last.Ok?)
      && (SleepTotal(tokens).Ok? ==> SleepTotal(tokens).value == init.value + last.value)
  {
    assert [tokens[|tokens| - 1]][..0] == [];
  }

  /** The text after "/sleep", cut at single spaces; an IndexError when there is no "/sleep". */
  function SleepArgs(text: string): (r: Result<seq<string>>)
    ensures r.Err? <==> !Contains(text, "/sleep")
  {
    if !Contains(text, "/sleep") then Err(MissingCommand)
    else
      SplitAtLeastTwo(text, "/sleep");
      Ok(Split(Strip(Split(text, "/sleep")[1]), " "))
  }

  /** How long /sleep sleeps: the total of the tokens, or a day when that total is 0. */
  function SleepSeconds(text: string): (r: Result<nat>)
    ensures r.Ok? ==> r.value > 0
  {
    var tokens :- SleepArgs(text);
    var total :- SleepTotal(tokens);
    Ok(if total == 0 then DefaultSleep else total)
  }

  /** "/sleep d=1 h=2" tokens: one day and two hours. */
  lemma SleepExample()
    ensures SleepTotal(["d=1", "h=2"]) == Ok(93_600)
  {
    TokenExample("d", '1', 86_400);
    assert "d" + "=" + ['1'] == "d=1";
    TokenExample("h", '2', 3_600);
    assert "h" + "=" + ['2'] == "h=2";
    var tokens := ["d=1", "h=2"];
    assert tokens[..1] == ["d=1"] && tokens[1] == "h=2";
    assert ["d=1"][..0] == [];
  }

  /** A one-digit count of a known unit. */
  lemma TokenExample(unit: string, digit: char, seconds: nat)
    requires unit in Units && Units[unit] == seconds && '=' !in unit && IsDigit(digit)
    ensures TokenSeconds(unit + "=" + [digit]) == Ok(seconds * DigitValue(digit))
  {
    TokenForm(unit, [digit]);
    assert [digit][..0] == "";
  }

  /** The token loop of sleep_time. */
  method AddUpTokens(tokens: seq<string>) returns (r: Result<nat>)
    ensures r == SleepTotal(tokens)
  {
    var total := 0;
    for i := 0 to |tokens|
      invariant SleepTotal(tokens[..i]) == Ok(total)
    {
      assert tokens[..i + 1][..i] == tokens[..i];
      var token := tokens[i];
      if !Contains(token, "=") {
        continue;
      }
      var parts := Split(token, "=");
      if |parts| != 2 {
        TokensStop(tokens, i);
        return Err(MalformedToken(token));
      }
      var (name, t) := (parts[0], parts[1]);
      var count := if IsDigits(t) then DecimalValue(t) else 0;
      total := total + UnitSeconds(name) * count;
    }
    assert tokens[..|tokens|] == tokens;
    return Ok(total);
  }

  /** When the token loop stops at token i, the whole total fails as it did there. */
  lemma {:induction false} TokensStop(tokens: seq<string>, i: nat)
    requires i < |tokens| && SleepTotal(tokens[..i + 1]).Err?
    ensures SleepTotal(tokens) == SleepTotal(tokens[..i + 1])
    decreases |tokens|
  {
    var p := tokens[..|tokens| - 1];
    if i == |tokens| - 1 {
      assert tokens[..i + 1] == tokens;
    } else {
      assert p[..i + 1] == tokens[..i + 1];
      TokensStop(p, i);
    }
  }

  /** The parsing half of sleep_time: the tokens after "/sleep", added up, a day when they add up to nothing. */
  method ParseSleep(text: string) returns (r: Result<nat>)
    ensures r == SleepSeconds(text)
  {
    if !Contains(text, "/sleep") {
      return Err(MissingCommand);
    }
    SplitAtLeastTwo(text, "/sleep");
    var args := Strip(Split(text, "/sleep")[1]);
    var tokens := Split(args, " ");
    assert SleepArgs(text) == Ok(tokens);
    var total :- AddUpTokens(tokens);
    if total == 0 {
      total := DefaultSleep;
    }
    return Ok(total);
  }

  /**
   * The four repeating jobs (system health, daily checks, server-up checks, general logs),
   * the pending wake-up after a sleep, and the replies sent to the main chat.
   */
  class Scheduler {
    var healthEnabled: bool
    var dailyEnabled: bool
    var upChecksEnabled: bool
    var generalEnabled: bool
    /** The delay of the pending `_start_logs` job, if a sleep scheduled one. */
    var wake: Option<nat>
    ghost var replies: seq<string>
    /** How many times the daily job was run at once by a start. */
    ghost var dailyRuns: nat

    function Switches(): Flags
      reads this
    {
      Flags(healthEnabled, dailyEnabled, upChecksEnabled, generalEnabled)
    }

    /** main() enables all four jobs. */
    constructor()
      ensures Switches() == Flags(true, true, true, true)
      ensures wake == None && replies == [] && dailyRuns == 0
    {
      healthEnabled, dailyEnabled, upChecksEnabled, generalEnabled := true, true, true, true;
      wake := None;
      replies := [];
      dailyRuns := 0;
    }

    /** stop_logs: the scope read from the message decides which jobs stop. */
    method StopLogs(message: Option<string>)
      modifies this
      ensures Switches() == AfterStop(StopScope(StopArgs(message)), old(Switches()))
      ensures replies == old(replies) + [StopReply(StopScope(StopArgs(message)))]
      ensures wake == old(wake) && dailyRuns == old(dailyRuns)
    {
      var scope := StopScope(StopArgs(message));
      Stop(scope);
    }

    /** The switching and the reply of stop_logs for a decided scope. */
    method Stop(scope: Scope)
      modifies this
      ensures Switches() == AfterStop(scope, old(Switches()))
      ensures replies == old(replies) + [StopReply(scope)]
      ensures wake == old(wake) && dailyRuns == old(dailyRuns)
    {
      match scope {
        case NonDaily =>
          healthEnabled := false;
          upChecksEnabled := false;
        case UpCheck =>
          upChecksEnabled := false;
        case All =>
          healthEnabled, dailyEnabled, upChecksEnabled, generalEnabled := false, false, false, false;
      }
      replies := replies + [StopReply(scope)];
    }

    /** _start_logs: all four jobs on, and the daily job run once at once. */
    method StartJobs()
      modifies this
      ensures Switches() == Flags(true, true, true, true)
      ensures dailyRuns == old(dailyRuns) + 1 && wake == old(wake) && replies == old(replies)
    {
      healthEnabled, dailyEnabled, upChecksEnabled, generalEnabled := true, true, true, true;
      dailyRuns := dailyRuns + 1;
    }

    /** start_logs: the reply, then _start_logs. */
    method StartLogs()
      modifies this
      ensures Switches() == Flags(true, true, true, true)
      ensures dailyRuns == old(dailyRuns) + 1 && wake == old(wake) && replies == old(replies) + ["Starting logs."]
    {
      replies := replies + ["Starting logs."];
      StartJobs();
    }

    /** The pending wake-up fires: it is used up and starts the jobs. */
    method Wake()
      requires wake.Some?
      modifies this
      ensures Switches() == Flags(true, true, true, true)
      ensures wake == None && dailyRuns == old(dailyRuns) + 1 && replies == old(replies)
    {
      wake := None;
      StartJobs();
    }

    /**
     * sleep_time: add up the tokens, replace any pending wake-up with one after that many
     * seconds, stop the jobs as /stop would for the same text, and say how long. A text
     * without "/sleep" or with a malformed token raises before anything changes.
     */
    method SleepTime(text: string) returns (r: Result<nat>)
      modifies this
      ensures r == SleepSeconds(text)
      ensures r.Err? ==> unchanged(this)
      ensures r.Ok? ==> Switches() == AfterStop(SleepScope(text), old(Switches())) && wake == Some(r.value)
      ensures r.Ok? ==> replies == old(replies) + [StopReply(SleepScope(text)), "sleeping for " + NatToString(r.value) + " seconds"]
      ensures dailyRuns == old(dailyRuns)
    {
      r := ParseSleep(text);
      if r.Ok? {
        Sleep(r.value, SleepScope(text));
      }
    }

    /** The effect of a parsed /sleep: stop as scoped, schedule the single wake-up, reply. */
    method Sleep(total: nat, scope: Scope)
      modifies this
      ensures Switches() == AfterStop(scope, old(Switches())) && wake == Some(total)
      ensures replies == old(replies) + [StopReply(scope), "sleeping for " + NatToString(total) + " seconds"]
      ensures dailyRuns == old(dailyRuns)
    {
      Stop(scope);
      wake := Some(total);
      replies := replies + ["sleeping for " + NatToString(total) + " seconds"];
    }
  }
}
