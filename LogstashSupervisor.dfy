/**
 * `LogstashProcess`: the PID-file convention, the bounded start poll, the stop
 * loop that escalates from SIGTERM to SIGKILL, and the status report.
 *
 * The operating system is seen only through what it answers: the contents of
 * the PID file at each read (`None` when `open` raises IOError), what
 * `check_pid` answers at each call, and whether `os.kill` raises. Spawning the
 * `runuser` shell command, `time.sleep` and console output are left out.
 */
module LogstashSupervisor {
  import opened Wrappers
  import opened Strings
  import opened LogstashConfig
  import EnvironmentFile

  const PidPath := "/var/run/dynamite/logstash/logstash.pid"

  /** How many times `start` polls the PID file after launching Logstash. */
  const Attempts := 6

  /** `int(open(path).read()) + 1` for a PID file that holds `file` (`None` when
      it cannot be opened): IOError, ValueError when `int` rejects the contents,
      or one more than the number in it. */
  function ReadPid(file: Option<string>): (r: Result<int>)
    ensures r == Err(IOError) <==> file.None?
    ensures r.Err? ==> r.error == IOError || r.error == ValueError
    ensures file.Some? ==> (r.Ok? <==> ParseInt(file.value).Some?)
    ensures r.Ok? ==> r.value == ParseInt(file.value).value + 1
  {
    match file
    case None => Err(IOError)
    case Some(contents) =>
      match ParseInt(contents)
      case Some(n) => Ok(n + 1)
      case None => Err(ValueError)
  }

  /** The PID `__init__` records: what `ReadPid` gives for the PID file, or -1 when
      that raises IOError or ValueError. */
  function RecordedPid(fs: FileSystem): int {
    match ReadPid(if PidPath in fs then Some(fs[PidPath]) else None)
    case Ok(p) => p
    case Err(_) => -1
  }

  /** The PID file the launch command writes with `echo $! > ...` is read back as
      that number plus one. */
  lemma RecordedPidOfEcho(fs: FileSystem, n: int)
    requires PidPath in fs && fs[PidPath] == IntToString(n) + "\n"
    ensures RecordedPid(fs) == n + 1
  {
    assert AllSpace("\n");
    IntToStringRoundTrip(n, "\n");
  }

  /** Without a readable number in the PID file the recorded PID is -1. */
  lemma RecordedPidUnknown(fs: FileSystem)
    requires PidPath !in fs || ParseInt(fs[PidPath]).None?
    ensures RecordedPid(fs) == -1
  {
  }

  /** A PID file holding a number records exactly that number plus one. */
  lemma RecordedPidKnown(fs: FileSystem)
    requires PidPath in fs && ParseInt(fs[PidPath]).Some?
    ensures RecordedPid(fs) == ParseInt(fs[PidPath]).value + 1
  {
  }

  // ---------------------------------------------------------------------------
  // start()

  /** What `start` ends with: its return value (or the ValueError it lets
      escape), the PID it leaves recorded, and how many polls it made. */
  datatype StartState = StartState(result: Result<bool>, pid: int, attempts: nat)

  /** Poll `j` (0-based) leads to another poll: the PID file could not be opened,
      or it named a process `check_pid` did not find. `polls[j]` is what reading
      the file gave at poll `j`; `live[j + 1]` is what `check_pid` answered. */
  predicate Retries(polls: seq<Result<int>>, live: seq<bool>, j: nat)
    requires j < |polls| && j + 1 < |live|
  {
    polls[j] == Err(IOError) || (polls[j].Ok? && !live[j + 1])
  }

  /** Poll `j` finds a live process under the PID the file names. */
  predicate Confirms(polls: seq<Result<int>>, live: seq<bool>, j: nat)
    requires j < |polls| && j + 1 < |live|
  {
    polls[j].Ok? && live[j + 1]
  }

  /** The polling loop from poll `i` on, with `pid` recorded: an IOError is
      retried, any other exception escapes, a PID is recorded and then either
      confirmed or retried. */
  function Poll(polls: seq<Result<int>>, live: seq<bool>, i: nat, pid: int): (r: StartState)
    requires i <= Attempts && |polls| >= Attempts && |live| > Attempts
    ensures i <= r.attempts <= Attempts
    ensures r.result == Ok(false) ==> r.attempts == Attempts
    decreases Attempts - i
  {
    if i == Attempts then StartState(Ok(false), pid, i)
    else if polls[i] == Err(IOError) then Poll(polls, live, i + 1, pid)
    else if polls[i].Err? then StartState(Err(polls[i].error), pid, i + 1)
    else if live[i + 1] then StartState(Ok(true), polls[i].value, i + 1)
    else Poll(polls, live, i + 1, polls[i].value)
  }

  /** The PID recorded after poll `i`: the one read, if one was. */
  function PidAfter(polls: seq<Result<int>>, i: nat, pid: int): int
    requires i < |polls|
  {
    if polls[i].Ok? then polls[i].value else pid
  }

  /** A poll that leads to another continues with the PID it read. */
  lemma PollRetry(polls: seq<Result<int>>, live: seq<bool>, i: nat, pid: int)
    requires i < Attempts && |polls| >= Attempts && |live| > Attempts
    requires Retries(polls, live, i)
    ensures Poll(polls, live, i, pid) == Poll(polls, live, i + 1, PidAfter(polls, i, pid))
  {
  }

  /** A poll that does not lead to another is the last one. */
  lemma PollHalt(polls: seq<Result<int>>, live: seq<bool>, i: nat, pid: int)
    requires i < Attempts && |polls| >= Attempts && |live| > Attempts
    requires !Retries(polls, live, i)
    ensures var r := Poll(polls, live, i, pid);
      r.attempts == i + 1 && r.result != Ok(false)
      && (r.result == Ok(true) <==> Confirms(polls, live, i))
      && (r.result.Err? ==> polls[i].Err? && r.result.error == polls[i].error)
      && (r.result == Ok(true) ==> r.pid == polls[i].value)
  {
  }

  /** `start`: the recorded PID is reset to -1, and `check_pid(-1)` (`live[0]`)
      decides whether Logstash counts as already running; otherwise it is
      launched and polled. */
  function StartRun(polls: seq<Result<int>>, live: seq<bool>): (r: StartState)
    requires |polls| >= Attempts && |live| > Attempts
    ensures r.attempts <= Attempts
  {
    if live[0] then StartState(Ok(true), -1, 0) else Poll(polls, live, 0, -1)
  }

  /** What reading the PID file gives at each poll. */
  function Reads(pidFiles: seq<Option<string>>): (polls: seq<Result<int>>)
    ensures |polls| == |pidFiles|
    ensures forall j :: 0 <= j < |pidFiles| ==> polls[j] == ReadPid(pidFiles[j])
  {
    seq(|pidFiles|, j requires 0 <= j < |pidFiles| => ReadPid(pidFiles[j]))
  }

  /** The loop returns False exactly when every one of its polls leads to another. */
  lemma {:induction false} PollFalseIff(polls: seq<Result<int>>, live: seq<bool>, i: nat, pid: int)
    requires i <= Attempts && |polls| >= Attempts && |live| > Attempts
    ensures Poll(polls, live, i, pid).result == Ok(false)
            <==> forall j :: i <= j < Attempts ==> Retries(polls, live, j)
    decreases Attempts - i
  {
    if i < Attempts {
      if Retries(polls, live, i) {
        PollRetry(polls, live, i, pid);
        PollFalseIff(polls, live, i + 1, PidAfter(polls, i, pid));
      } else {
        PollHalt(polls, live, i, pid);
      }
    }
  }

  /** Every poll before the last one led to another. */
  lemma {:induction false} PollRetriesBefore(polls: seq<Result<int>>, live: seq<bool>, i: nat, pid: int)
    requires i <= Attempts && |polls| >= Attempts && |live| > Attempts
    ensures var r := Poll(polls, live, i, pid);
      forall j :: i <= j < r.attempts - 1 ==> Retries(polls, live, j)
    decreases Attempts - i
  {
    if i < Attempts {
      if Retries(polls, live, i) {
        PollRetry(polls, live, i, pid);
        PollRetriesBefore(polls, live, i + 1, PidAfter(polls, i, pid));
      } else {
        PollHalt(polls, live, i, pid);
      }
    }
  }

  /** The loop stops early only at a poll that does not lead to another; it
      returns True when that poll confirms a live process, recording its PID, and
      otherwise lets that poll's exception escape. */
  lemma {:induction false} PollStopsAt(polls: seq<Result<int>>, live: seq<bool>, i: nat, pid: int)
    requires i <= Attempts && |polls| >= Attempts && |live| > Attempts
    ensures var r := Poll(polls, live, i, pid);
      r.result != Ok(false) ==>
        i < r.attempts
        && !Retries(polls, live, r.attempts - 1)
        && (r.result == Ok(true) <==> Confirms(polls, live, r.attempts - 1))
        && (r.result.Err? ==> polls[r.attempts - 1].Err? && r.result.error == polls[r.attempts - 1].error)
        && (r.result == Ok(true) ==> r.pid == polls[r.attempts - 1].value)
    decreases Attempts - i
  {
    if i < Attempts {
      if Retries(polls, live, i) {
        PollRetry(polls, live, i, pid);
        PollStopsAt(polls, live, i + 1, PidAfter(polls, i, pid));
      } else {
        PollHalt(polls, live, i, pid);
      }
    }
  }

  /** Only the first six reads and the first seven liveness answers matter:
      `start` polls at most six times. */
  lemma {:induction false} PollReadsSix(polls: seq<Result<int>>, live: seq<bool>, i: nat, pid: int)
    requires i <= Attempts && |polls| >= Attempts && |live| > Attempts
    ensures Poll(polls, live, i, pid) == Poll(polls[..Attempts], live[..Attempts + 1], i, pid)
    decreases Attempts - i
  {
    if i < Attempts {
      var polls', live' := polls[..Attempts], live[..Attempts + 1];
      assert polls'[i] == polls[i] && live'[i + 1] == live[i + 1];
      if Retries(polls, live, i) {
        PollRetry(polls, live, i, pid);
        PollRetry(polls', live', i, pid);
        PollReadsSix(polls, live, i + 1, PidAfter(polls, i, pid));
        assert polls'[..Attempts] == polls' && live'[..Attempts + 1] == live';
      }
    }
  }

  /** `start` returns False exactly when Logstash was not found running under
      PID -1 and none of the six polls confirmed it; it then made all six. */
  lemma StartFalseIff(polls: seq<Result<int>>, live: seq<bool>)
    requires |polls| >= Attempts && |live| > Attempts
    ensures StartRun(polls, live).result == Ok(false)
            <==> !live[0] && forall j :: 0 <= j < Attempts ==> Retries(polls, live, j)
    ensures StartRun(polls, live).result == Ok(false) ==> StartRun(polls, live).attempts == Attempts
  {
    PollFalseIff(polls, live, 0, -1);
  }

  /** `start` returns True either without polling, leaving PID -1 recorded, or at
      the first poll that confirms a live process, recording the PID it read. */
  lemma StartTrue(polls: seq<Result<int>>, live: seq<bool>)
    requires |polls| >= Attempts && |live| > Attempts
    ensures var r := StartRun(polls, live);
      r.result == Ok(true) ==>
        (live[0] && r.pid == -1 && r.attempts == 0)
        || (!live[0] && 0 < r.attempts && Confirms(polls, live, r.attempts - 1)
            && (forall j :: 0 <= j < r.attempts - 1 ==> Retries(polls, live, j))
            && r.pid == polls[r.attempts - 1].value)
  {
    PollStopsAt(polls, live, 0, -1);
    PollRetriesBefore(polls, live, 0, -1);
  }

  /** The only exception `start` lets escape is the ValueError of a PID file that
      does not hold a number, at the first poll that did not lead to another. */
  lemma StartRaises(pidFiles: seq<Option<string>>, live: seq<bool>)
    requires |pidFiles| >= Attempts && |live| > Attempts
    ensures var r := StartRun(Reads(pidFiles), live);
      r.result.Err? ==>
        r.result.error == ValueError && !live[0] && 0 < r.attempts
        && pidFiles[r.attempts - 1].Some? && ParseInt(pidFiles[r.attempts - 1].value).None?
        && (forall j :: 0 <= j < r.attempts - 1 ==> Retries(Reads(pidFiles), live, j))
  {
    PollStopsAt(Reads(pidFiles), live, 0, -1);
    PollRetriesBefore(Reads(pidFiles), live, 0, -1);
  }

  /** `start` looks at no more than six PID-file reads and seven `check_pid` answers. */
  lemma StartReadsSix(polls: seq<Result<int>>, live: seq<bool>)
    requires |polls| >= Attempts && |live| > Attempts
    ensures StartRun(polls, live) == StartRun(polls[..Attempts], live[..Attempts + 1])
  {
    PollReadsSix(polls, live, 0, -1);
  }

  // ---------------------------------------------------------------------------
  // stop()

  datatype Signal = SIGTERM | SIGKILL

  /** What one pass of the stop loop meets: whether `os.kill` raises, and what
      `check_pid` answers after the pause. */
  datatype Round = Round(killRaises: bool, alive: bool)

  /** The signal of the pass made after `attempts` earlier ones: SIGTERM for the
      first four passes, SIGKILL from the fifth on. */
  function SignalFor(attempts: nat): (s: Signal)
    ensures s == SIGKILL <==> attempts > 3
  {
    if attempts > 3 then SIGKILL else SIGTERM
  }

  /** A pass that ends the loop: the kill raises, or the process is gone. */
  predicate Ends(pid: int, round: Round) {
    (pid != -1 && round.killRaises) || !round.alive
  }

  /** Some pass from `i` on ends the loop. */
  predicate EndsFrom(pid: int, rounds: seq<Round>, i: nat)
    decreases |rounds| - i
  {
    i < |rounds| && (Ends(pid, rounds[i]) || EndsFrom(pid, rounds, i + 1))
  }

  /** A pass at `k` that ends the loop is one from every earlier `i` on. */
  lemma {:induction false} EndsFromWitness(pid: int, rounds: seq<Round>, i: nat, k: nat)
    requires i <= k < |rounds| && Ends(pid, rounds[k])
    ensures EndsFrom(pid, rounds, i)
    decreases k - i
  {
    if i < k {
      EndsFromWitness(pid, rounds, i + 1, k);
    }
  }

  /** The loop's return value and the signals it delivered. */
  datatype StopOutcome = StopOutcome(stopped: bool, signals: seq<Signal>)

  /** The stop loop from pass `i` on. It runs until a pass ends it, so the rounds
      are required to hold one. */
  function StopFrom(pid: int, rounds: seq<Round>, i: nat): StopOutcome
    requires EndsFrom(pid, rounds, i)
    decreases |rounds| - i
  {
    if pid != -1 && rounds[i].killRaises then StopOutcome(false, [])
    else
      var sent := if pid != -1 then [SignalFor(i)] else [];
      if !rounds[i].alive then StopOutcome(true, sent)
      else
        var rest := StopFrom(pid, rounds, i + 1);
        StopOutcome(rest.stopped, sent + rest.signals)
  }

  /** One pass of the loop: unless it ends the loop, the outcome from pass `i` is
      its own signal followed by the outcome from pass `i + 1`. */
  lemma StopStep(pid: int, rounds: seq<Round>, i: nat)
    requires EndsFrom(pid, rounds, i)
    ensures i < |rounds|
    ensures var sent := if pid != -1 then [SignalFor(i)] else [];
      !Ends(pid, rounds[i]) ==>
        EndsFrom(pid, rounds, i + 1)
        && StopFrom(pid, rounds, i)
           == StopOutcome(StopFrom(pid, rounds, i + 1).stopped, sent + StopFrom(pid, rounds, i + 1).signals)
  {
  }

  /** The signals sent from pass `i` on are, in order, those of passes `i`,
      `i + 1`, ...: SIGTERM while fewer than four passes came before, then
      SIGKILL. With PID -1 nothing is sent. */
  lemma {:induction false} StopSignals(pid: int, rounds: seq<Round>, i: nat)
    requires EndsFrom(pid, rounds, i)
    ensures var o := StopFrom(pid, rounds, i);
      (pid == -1 ==> o.signals == [])
      && forall j :: 0 <= j < |o.signals| ==> o.signals[j] == SignalFor(i + j)
    decreases |rounds| - i
  {
    StopStep(pid, rounds, i);
    if !Ends(pid, rounds[i]) {
      StopSignals(pid, rounds, i + 1);
      var rest := StopFrom(pid, rounds, i + 1);
      if pid != -1 {
        var all := [SignalFor(i)] + rest.signals;
        assert all[0] == SignalFor(i);
        assert forall j :: 1 <= j < |all| ==> all[j] == rest.signals[j - 1];
      }
    }
  }

  /** The loop ends at the first pass `k` that ends it: it returns True when the
      process is gone and False when the kill raised; every pass before `k`
      delivered its signal, and pass `k` did too unless its kill raised. */
  lemma {:induction false} StopEndsAt(pid: int, rounds: seq<Round>, i: nat, k: nat)
    requires i <= k < |rounds| && Ends(pid, rounds[k])
    requires forall j :: i <= j < k ==> !Ends(pid, rounds[j])
    ensures EndsFrom(pid, rounds, i)
    ensures var o := StopFrom(pid, rounds, i);
      (o.stopped <==> !(pid != -1 && rounds[k].killRaises))
      && |o.signals| == (if pid == -1 then 0 else if o.stopped then k - i + 1 else k - i)
    decreases k - i
  {
    if i < k {
      assert !Ends(pid, rounds[i]);
      StopEndsAt(pid, rounds, i + 1, k);
    } else {
      assert EndsFrom(pid, rounds, i);
    }
  }

  // ---------------------------------------------------------------------------
  // The process handle

  /** The name of the log file `status()` reports, inside the `path.logs` directory. */
  const LogFile := "logstash-plain.log"

  /** `path` is the file `name` inside directory `dir`: the two joined, with a
      separator between them unless `dir` is empty or already ends with one. */
  predicate JoinedUnder(dir: string, name: string, path: string) {
    (dir == [] || dir[|dir| - 1] == '/' ==> path == dir + name)
    && (dir != [] && dir[|dir| - 1] != '/' ==> path == dir + "/" + name)
  }

  /** The dictionary `status()` returns. */
  datatype StatusReport = StatusReport(pid: int, running: bool, user: string, logs: string)

  class LogstashProcess {
    var configurationDirectory: string
    var config: LogstashConfigurator
    var pid: int

    constructor (configurationDirectory: string, config: LogstashConfigurator, pid: int)
      ensures this.configurationDirectory == configurationDirectory
      ensures this.config == config && this.pid == pid
    {
      this.configurationDirectory := configurationDirectory;
      this.config := config;
      this.pid := pid;
    }

    /** `LogstashProcess(configuration_directory)`: build the configurator (its
        exceptions propagate), then record the PID from the PID file. */
    static method Create(fs: FileSystem, dir: string) returns (r: Result<LogstashProcess>)
      ensures YamlOptions(fs, dir).Err? ==> r == Err(ValueError)
      ensures YamlOptions(fs, dir).Ok? && EnvironmentPath !in fs ==> r == Err(IOError)
      ensures YamlOptions(fs, dir).Ok? && EnvironmentPath in fs ==>
        var outcome := EnvironmentFile.ParseLines(EnvironmentChain, map[], SplitLines(fs[EnvironmentPath]));
        (r.Err? <==> outcome.error.Some?)
        && (r.Err? ==> r.error == IndexError)
        && (r.Ok? ==>
              fresh(r.value) && fresh(r.value.config)
              && r.value.configurationDirectory == dir && r.value.pid == RecordedPid(fs)
              && r.value.config.configurationDirectory == dir
              && r.value.config.lsConfigOptions == YamlOptions(fs, dir).value
              && r.value.config.jvmConfigOptions == JvmOptions(fs, dir)
              && r.value.config.javaHome == Get(outcome.state, "java_home")
              && r.value.config.lsPathConf == Get(outcome.state, "ls_path_conf")
              && r.value.config.lsHome == Get(outcome.state, "ls_home"))
    {
      var config := LogstashConfigurator.Open(fs, dir);
      if config.Err? {
        return Err(config.error);
      }
      var p := new LogstashProcess(dir, config.value, RecordedPid(fs));
      return Ok(p);
    }

    /** `start`, given the PID file at each of the six polls and the answers of
        `check_pid`: `live[0]` for the check made before launching, `live[j + 1]`
        for poll `j`. */
    method Start(pidFiles: seq<Option<string>>, live: seq<bool>) returns (r: Result<bool>)
      requires |pidFiles| >= Attempts && |live| > Attempts
      modifies this
      ensures r == StartRun(Reads(pidFiles), live).result && pid == StartRun(Reads(pidFiles), live).pid
      ensures configurationDirectory == old(configurationDirectory) && config == old(config)
    {
      ghost var polls := Reads(pidFiles);
      pid := -1;
      if live[0] {
        return Ok(true);
      }
      var retry := 0;
      while retry < Attempts
        invariant 0 <= retry <= Attempts
        invariant Poll(polls, live, retry, pid) == StartRun(polls, live)
        invariant configurationDirectory == old(configurationDirectory) && config == old(config)
      {
        var polled := ReadPid(pidFiles[retry]);
        if polled.Err? {
          if polled.error != IOError {
            return Err(polled.error);
          }
          retry := retry + 1;
        } else {
          pid := polled.value;
          if live[retry + 1] {
            return Ok(true);
          }
          retry := retry + 1;
        }
      }
      return Ok(false);
    }

    /** `stop`, given what each pass of its loop meets; returns what `stop`
        returns and the signals `os.kill` delivered. */
    method Stop(rounds: seq<Round>) returns (stopped: bool, signals: seq<Signal>)
      requires EndsFrom(pid, rounds, 0)
      ensures StopOutcome(stopped, signals) == StopFrom(pid, rounds, 0)
    {
      var alive := true;
      var attempts := 0;
      signals := [];
      while alive
        invariant attempts <= |rounds|
        invariant alive ==> EndsFrom(pid, rounds, attempts)
        invariant alive ==>
          StopFrom(pid, rounds, 0)
          == StopOutcome(StopFrom(pid, rounds, attempts).stopped, signals + StopFrom(pid, rounds, attempts).signals)
        invariant !alive ==> StopFrom(pid, rounds, 0) == StopOutcome(true, signals)
        decreases |rounds| - attempts
      {
        var signal := SignalFor(attempts);
        var round := rounds[attempts];
        StopStep(pid, rounds, attempts);
        attempts := attempts + 1;
        if pid != -1 {
          if round.killRaises {
            return false, signals;
          }
          signals := signals + [signal];
        }
        alive := round.alive;
      }
      return true, signals;
    }

    /** `restart`: `stop`, whose result is ignored, then `start`. */
    method Restart(rounds: seq<Round>, pidFiles: seq<Option<string>>, live: seq<bool>) returns (r: Result<bool>)
      requires EndsFrom(pid, rounds, 0)
      requires |pidFiles| >= Attempts && |live| > Attempts
      modifies this
      ensures r == StartRun(Reads(pidFiles), live).result && pid == StartRun(Reads(pidFiles), live).pid
      ensures configurationDirectory == old(configurationDirectory) && config == old(config)
    {
      var _, _ := Stop(rounds);
      r := Start(pidFiles, live);
    }

    /** `status`, given what `check_pid` answers; joining a missing `path.logs`
        (None) onto the log file name raises TypeError. */
    function Status(running: bool): (r: Result<StatusReport>)
      reads this, config
      ensures r.Ok? <==> "path.logs" in config.lsConfigOptions
      ensures r.Err? ==> r.error == TypeError
      ensures r.Ok? ==>
        r.value.pid == pid && r.value.running == running && r.value.user == "dynamite"
        && JoinedUnder(config.lsConfigOptions["path.logs"], LogFile, r.value.logs)
    {
      match config.GetLogPath()
      case None => Err(TypeError)
      case Some(dir) =>
        PathJoinRelative(dir, LogFile);
        Ok(StatusReport(pid, running, "dynamite", PathJoin(dir, LogFile)))
    }
  }
}
