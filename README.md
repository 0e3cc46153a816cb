# Logstash and ElastiFlow configuration, modelled in Dafny

This project models two parts of the dynamite-nsm installer:

- the Logstash service layer, `lib/services/logstash.py`;
- the ElastiFlow configurator, `installer/elastiflow.py`.

It proves what their parsers, writers and process supervision do.

**`LogstashConfigurator`**, in module `LogstashConfig`, reads three files:

- `logstash.yml`: `key: value` lines, with quotes removed from the value;
- `jvm.options`: the `-Xms` and `-Xmx` heap flags;
- `/etc/environment`: `JAVA_HOME`, `LS_PATH_CONF` and `LS_HOME`.

It offers a getter and a setter for each setting. `write_configs` backs up both files and writes `logstash.yml` from the options. It then rewrites the heap flags into `jvm.options`.

**`LogstashProcess`**, in module `LogstashSupervisor`, handles the process:

- it records the PID from the PID file, plus one;
- it starts Logstash and polls the PID file at most six times;
- it stops Logstash with SIGTERM, switching to SIGKILL from the fifth pass on;
- it reports status.

**`ElastiflowConfigurator`**, in modules `ElastiflowTable`, `Elastiflow` and `ElastiflowConfig`, works as follows:

- it holds 28 attributes, each with a default;
- it reads them from `/etc/environment` through an `if … elif` chain of `ELASTIFLOW_…` prefixes;
- it writes them back under `ELASTIFLOW_` + the attribute's name in capitals.

It rewrites lines that already carry a key and appends the rest. Module `ElastiflowSetup` models the end of `setup_logstash_elastiflow`. There, four path variables are appended to `/etc/environment` when missing, and then a fresh configurator writes its defaults.

Four shared modules do the common work:

- `EnvironmentFile` is the `startswith` chain parser both configurators use. It is generic in the chain.
- `EnvironmentWriter` holds the rewrite-and-append writer and the insertion-ordered dict it works on.
- `RoundTrip` holds the facts for reading written text back.
- `Strings` holds the Python string operations written out over `seq<char>`: `strip`, `split`, `in`, `replace`, `upper`, `str`/`int`, `os.path.join` and `readlines`.

A few conventions run through the whole model:

- **Files.** The file system is a `map` from path to contents, and `readlines()` is `SplitLines`.
- **Exceptions.** A raised exception is an `Err` of the `Result` datatype in `Wrappers`, or a `Some` in an `Option<Exception>` for a method that stops midway. The exceptions are `IOError`, `ValueError`, `IndexError`, `KeyError` and `TypeError`.
- **Python version.** The semantics modelled are those of Python 3.7 and later. There, dicts and `vars()` list keys in insertion order, which the declaration order of `CollectVars` relies on. There too, `os.path.join` given `None` raises TypeError, which `Status` models; Python 2 would raise AttributeError instead.
- **Process answers.** What the operating system answers while a process is managed is an input, and it is never simulated: the PID file's contents at each read, `check_pid`, and whether `os.kill` raises.

The code's loops are imperative methods, each proved equal to a recursive specification function:

- the YAML and JVM parse loops;
- the JVM rewrite loop;
- the environment parse loop;
- the building of the variables dict;
- the writer's line loop and its append loop;
- the start poll and the stop loop.

Lemmas then state what those functions mean:

- which lines raise, in both directions;
- which entry gives a key its value;
- that written files read back;
- that the guards are idempotent.

Both `_overwrite_jvm_options` and `write_environment_variables` write every unchanged line back with its own newline and then one more. So each such line gains an empty line after it. The model keeps this behaviour. For `jvm.options`, `JvmRewriteReadsBack` shows the heap settings still read back correctly. For `/etc/environment`, the effect is listed under Findings.

Where the documentation and the code of `start` disagree, the model follows the code. The documentation says that `start` reports success without launching when the recorded PID is alive. The code first resets the PID to -1, so the check it makes is `check_pid(-1)`, `live[0]` in the model. `StartTrue` states the resulting cases. No corrected `start` is offered: the source does not show whether the recorded PID or a fresh read of the PID file was meant to be checked.

## Model

| member | source | states |
|---|---|---|
| LogstashConfig.Get | lib/services/logstash.py:95-99 | `dict.get`: `Some` exactly when the key is present, holding the key's value |
| LogstashConfig.CleanValue | lib/services/logstash.py:48 | the stored value contains no double or single quote |
| LogstashConfig.ParseLogstashYaml | lib/services/logstash.py:36-49 | a missing `logstash.yml` gives the empty dict; otherwise the loop's dict (or its ValueError) is the fold of `YamlStep` over the file's lines |
| LogstashConfig.YamlErrorIff | lib/services/logstash.py:45-47 | parsing raises exactly when some non-comment line containing `:` does not split into exactly two parts, and the exception is ValueError |
| LogstashConfig.YamlKeysFromEntries | lib/services/logstash.py:45-48 | every key of the parsed dict is the key of some non-comment line containing `:` |
| LogstashConfig.YamlLastEntryWins | lib/services/logstash.py:45-48 | the last entry line for a key gives that key its value: the stripped text after `:` without quotes |
| LogstashConfig.YamlLineReadsBack | lib/services/logstash.py:194-196 | a `key: value` line as `write_configs` writes it, with a clean key and value, is parsed back as exactly that key and value |
| LogstashConfig.YamlRoundTrip | lib/services/logstash.py:194-196 | the lines written for an options dict (each key once, clean keys and values) parse back to that same dict |
| LogstashConfig.ParseJvmOptions | lib/services/logstash.py:51-65 | a missing `jvm.options` gives the empty dict; otherwise the loop's dict is the fold of `JvmStep` over the lines |
| LogstashConfig.JvmKeys | lib/services/logstash.py:60-64 | the parse adds no key other than `initial_memory` and `maximum_memory` |
| LogstashConfig.JvmLastWins | lib/services/logstash.py:60-64 | the last non-comment line that sets the flag gives the heap key that line with the flag removed and stripped; `-Xms` is tested first, so only a line containing `-Xmx` and not `-Xms` sets `maximum_memory` |
| LogstashConfig.JvmUnset | lib/services/logstash.py:60-64 | when no line sets a heap flag its key is present exactly when it was before, with the same value |
| LogstashConfig.RewriteJvm | lib/services/logstash.py:84-92 | the rewrite raises exactly when a line sets a heap flag whose key is missing from the options, and then it raises KeyError |
| LogstashConfig.RewriteJvmMissing | lib/services/logstash.py:86-89 | one flag line whose option is missing makes the whole rewrite raise KeyError |
| LogstashConfig.RewriteLines | lib/services/logstash.py:84-92 | the loop's output (or its KeyError) is `RewriteJvm` of the options and the file's lines |
| LogstashConfig.JvmRewriteReadsBack | lib/services/logstash.py:80-93 | re-parsing the rewritten `jvm.options` gives a heap key exactly when some line set that flag, with the configured value |
| LogstashConfig.TruncateToInt | lib/services/logstash.py:169-179 | `int(gigs)` is the integer part: at most `gigs` and within one of it, rounded toward zero for negative values |
| LogstashConfig.HeapSizeReadsBack | lib/services/logstash.py:169-179 | `str(int(gigs)) + 'g'` ends in `g`, its number parses back to `int(gigs)`, and it is a heap value the rewrite and re-parse keep |
| LogstashConfig.EnvironmentReadsBack | lib/services/logstash.py:72-78 | a file of `JAVA_HOME=…`, `LS_PATH_CONF=…` and `LS_HOME=…` lines with clean values parses to exactly those three values, without an exception |
| LogstashConfig.WritePathsDiffer | lib/services/logstash.py:185-193 | the two configuration files and their two timestamped backups are four different paths |
| LogstashConfig.WrittenFiles | lib/services/logstash.py:181-197 | after a successful `write_configs` the old `logstash.yml` is in its backup, `logstash.yml` holds just the written options, and `jvm.options` holds the rewrite of its old lines |
| LogstashConfig.ConfigsReadBack | lib/services/logstash.py:181-197 | after a successful `write_configs` the new `logstash.yml` parses back to the configurator's options, and the backup holds the old file |
| LogstashConfig.LogstashConfigurator.Open | lib/services/logstash.py:24-34 | `__init__`: ValueError from a malformed `logstash.yml`, IOError without `/etc/environment`, IndexError exactly when a line starting with `JAVA_HOME`, `LS_PATH_CONF` or `LS_HOME` lacks `=`; otherwise the two parsed dicts and the three environment values |
| LogstashConfig.LogstashConfigurator.ParseEnvironmentFile | lib/services/logstash.py:67-78 | JAVA_HOME, LS_PATH_CONF and LS_HOME become the values the `elif` chain reads; IOError leaves them as they were; the options are unchanged |
| LogstashConfig.LogstashConfigurator.OverwriteJvmOptions | lib/services/logstash.py:80-93 | IOError without `jvm.options`, otherwise the file replaced by the rewrite, or the rewrite's KeyError |
| LogstashConfig.LogstashConfigurator.SerialiseOptions | lib/services/logstash.py:194-196 | the text written is one `key: value` line per key, in the given order |
| LogstashConfig.LogstashConfigurator.WriteConfigs | lib/services/logstash.py:181-197 | the backups, the fresh `logstash.yml` and the rewritten `jvm.options`, as `ConfigsWritten` describes them |
| LogstashConfig.LogstashConfigurator.GetLogPath | lib/services/logstash.py:95-99 | `Some` of `path.logs` exactly when it is set |
| LogstashConfig.LogstashConfigurator.GetNodeName | lib/services/logstash.py:101-105 | `Some` of `node.name` exactly when it is set |
| LogstashConfig.LogstashConfigurator.GetDataPath | lib/services/logstash.py:107-111 | `Some` of `path.data` exactly when it is set |
| LogstashConfig.LogstashConfigurator.GetPipelineBatchSize | lib/services/logstash.py:113-117 | `Some` of `pipeline.batch.size` exactly when it is set |
| LogstashConfig.LogstashConfigurator.GetPipelineBatchDelay | lib/services/logstash.py:119-124 | `Some` of `pipeline.batch.delay` exactly when it is set |
| LogstashConfig.LogstashConfigurator.GetJvmInitialMemory | lib/services/logstash.py:126-130 | `Some` of `initial_memory` exactly when it is set |
| LogstashConfig.LogstashConfigurator.GetJvmMaximumMemory | lib/services/logstash.py:132-136 | `Some` of `maximum_memory` exactly when it is set |
| LogstashConfig.LogstashConfigurator.SetLogPath | lib/services/logstash.py:138-142 | only `path.logs` changes, and the getter then returns the new path |
| LogstashConfig.LogstashConfigurator.SetNodeName | lib/services/logstash.py:144-148 | only `node.name` changes, and the getter then returns the new name |
| LogstashConfig.LogstashConfigurator.SetDataPath | lib/services/logstash.py:150-154 | only `path.data` changes, and the getter then returns the new path |
| LogstashConfig.LogstashConfigurator.SetPipelineBatchSize | lib/services/logstash.py:156-160 | only `pipeline.batch.size` changes, to text that parses back to the given count |
| LogstashConfig.LogstashConfigurator.SetPipelineBatchDelay | lib/services/logstash.py:162-167 | only `pipeline.batch.delay` changes, to text that parses back to the given delay |
| LogstashConfig.LogstashConfigurator.SetJvmInitialMemory | lib/services/logstash.py:169-173 | only `initial_memory` changes, to `str(int(gigs)) + 'g'`; the maximum is untouched |
| LogstashConfig.LogstashConfigurator.SetJvmMaximumMemory | lib/services/logstash.py:175-179 | only `maximum_memory` changes, to `str(int(gigs)) + 'g'`; the initial size is untouched |
| LogstashSupervisor.ReadPid | lib/services/logstash.py:540-543 | IOError exactly when the PID file is missing, ValueError when its text is not a number, and otherwise that number plus one |
| LogstashSupervisor.RecordedPidOfEcho | lib/services/logstash.py:540-543 | a PID file holding `n` and a newline, as `echo $!` writes it, gives the recorded PID `n + 1` |
| LogstashSupervisor.RecordedPidUnknown | lib/services/logstash.py:540-543 | a missing or unparsable PID file gives the PID -1 |
| LogstashSupervisor.RecordedPidKnown | lib/services/logstash.py:540-543 | a PID file holding a number gives that number plus one |
| LogstashSupervisor.Poll | lib/services/logstash.py:565-582 | the poll from attempt `i` makes between `i` and six attempts, and it returns False only after all six |
| LogstashSupervisor.StartFalseIff | lib/services/logstash.py:551-583 | `start` returns False exactly when nothing is alive before the launch and all six polls retry; it has then made six attempts |
| LogstashSupervisor.StartTrue | lib/services/logstash.py:551-583 | `start` returns True either at once, with the PID still -1, or at the first poll that reads a PID that is alive, after retrying every earlier poll |
| LogstashSupervisor.StartRaises | lib/services/logstash.py:565-582 | `start` raises only ValueError, from a poll whose PID file holds text that is not a number; every earlier poll retried |
| LogstashSupervisor.StartReadsSix | lib/services/logstash.py:565 | `start` looks at no more than six PID-file reads and seven liveness answers |
| LogstashSupervisor.SignalFor | lib/services/logstash.py:598-601 | SIGKILL exactly when more than three passes came before, SIGTERM otherwise |
| LogstashSupervisor.StopSignals | lib/services/logstash.py:585-610 | with PID -1 no signal is sent; otherwise the `j`-th signal sent is the one for pass `j` |
| LogstashSupervisor.StopEndsAt | lib/services/logstash.py:585-610 | when pass `k` is the first to end the loop, `stop` reports success unless `os.kill` raised there, and it has sent one signal per pass made |
| LogstashSupervisor.LogstashProcess.Create | lib/services/logstash.py:529-543 | ValueError for bad YAML and IOError for a missing environment file propagate; IndexError exactly when the environment parse raises; otherwise success, with a handle holding the directory, the configurator's options, its `java_home`, `ls_path_conf` and `ls_home` from the environment file, and the PID recorded from the PID file |
| LogstashSupervisor.LogstashProcess.Start | lib/services/logstash.py:545-583 | the result and the new PID are those of `StartRun` over the PID-file reads and the liveness answers |
| LogstashSupervisor.LogstashProcess.Stop | lib/services/logstash.py:585-610 | the result and the signals sent are those of `StopFrom` over the passes |
| LogstashSupervisor.LogstashProcess.Restart | lib/services/logstash.py:612-620 | the result and the PID are those of `start`; what `stop` returned is ignored; the configuration directory and the configurator are unchanged |
| LogstashSupervisor.LogstashProcess.Status | lib/services/logstash.py:622-635 | TypeError exactly when `path.logs` is not set; otherwise the PID, the liveness answer, the user `dynamite`, and `logstash-plain.log` joined under the log directory |
| EnvironmentFile.FirstMatch | installer/elastiflow.py:53-109 | the arm chosen is the first one whose prefix starts the line; `None` exactly when no prefix does |
| EnvironmentFile.AssignedValue | lib/services/logstash.py:74 | `line.split('=')[1].strip()` raises IndexError exactly when the line has no `=` |
| EnvironmentFile.AssignmentReadsBack | lib/services/logstash.py:74 | `key=value` followed by whitespace gives back `value`, for a key and value without `=` and a trimmed value |
| EnvironmentFile.Parse | lib/services/logstash.py:72-78 | the loop's attributes and exception are those of `ParseLines` over the lines |
| EnvironmentFile.ParseErrorIff | installer/elastiflow.py:53-109 | the parse raises exactly when some line matches an arm and has no `=`, and the exception is IndexError |
| EnvironmentFile.ParseStopsAtError | installer/elastiflow.py:53-109 | once a line raises, the lines after it change nothing |
| EnvironmentFile.ParseLastAssignment | installer/elastiflow.py:53-109 | the last line that assigns an attribute gives it its value |
| EnvironmentFile.ParseUnassigned | installer/elastiflow.py:53-109 | an attribute no line assigns keeps its value, or stays absent |
| EnvironmentFile.ParseKeys | installer/elastiflow.py:53-109 | no attribute is lost, and every new one is assigned by an arm of the chain |
| EnvironmentFile.ParseAfterNoMatch | installer/elastiflow.py:53-109 | lines that match no arm, placed in front of others, change nothing |
| EnvironmentWriter.Store | installer/elastiflow.py:117 | dict assignment: the key maps to the value, and the key order gains the key only when the key is new |
| EnvironmentWriter.Pop | installer/elastiflow.py:123 | `pop`: the key is gone from the values and from the key order, and nothing else is |
| EnvironmentWriter.Collect | installer/elastiflow.py:115-117 | the dict built has exactly the given keys |
| EnvironmentWriter.CollectContents | installer/elastiflow.py:115-117 | for distinct keys, the dict lists the keys in order, each with its own value |
| EnvironmentWriter.KeyOf | installer/elastiflow.py:120 | `line.split('=')[0]` is the text before the first `=`, and it is a prefix of the line |
| EnvironmentWriter.UpsertSpec | installer/elastiflow.py:118-124 | a line is rewritten exactly when it has `=`, its key is in the dict and no earlier line had that key; the keys still pending are those no line has, with their values; the keys rewritten and the keys pending are the dict's keys, each once |
| EnvironmentWriter.RewriteLines | installer/elastiflow.py:118-124 | the loop's text and remaining dict are those of `Upsert` over the lines |
| EnvironmentWriter.AppendPending | installer/elastiflow.py:125-126 | one `KEY=value` line is appended per remaining key, in dict order |
| EnvironmentWriter.WrittenLines | installer/elastiflow.py:118-126 | the written file consists of the loop's output lines, then the appended assignments |
| EnvironmentWriter.UntouchedLineGainsBlank | installer/elastiflow.py:124 | an untouched line read with its newline is written back followed by an empty line |
| EnvironmentWriter.KeptLinesReadBack | installer/elastiflow.py:124 | when each line keeps a single newline, the file reads back as the original lines |
| EnvironmentWriter.CorrectedWrittenLines | installer/elastiflow.py:118-126 | the corrected writer's file reads back as one line per line read, `KEY=value` where rewritten and the line with its own newline where not, then one `KEY=value` line per pending key in dict order |
| EnvironmentWriter.CorrectedLineAt | installer/elastiflow.py:118-126 | the corrected file has one line per line read plus one per pending key; line `i` is `KEY=value` when the loop rewrote it and the line as read (a newline added only to a last line without one) when it did not |
| EnvironmentWriter.NothingRewritten | installer/elastiflow.py:118-123 | when no line carries a key of the dict, the loop leaves every line untouched and the dict as it was |
| EnvironmentWriter.CorrectedKeepsFile | installer/elastiflow.py:118-126 | a file that ends with a newline and holds none of the dict's keys reads back from the corrected writer as it was, followed by one `KEY=value` line per key of the dict, in order |
| RoundTrip.RewrittenQuiet | installer/elastiflow.py:118-124 | over a file none of whose lines the chain reads, the loop's output is read by no arm, provided its replacement lines are not |
| RoundTrip.AppendedNoError | installer/elastiflow.py:125-126 | no appended `KEY=value` line raises when read back |
| RoundTrip.AppendedLast | installer/elastiflow.py:125-126 | when exactly one appended line assigns an attribute, reading back gives it that line's value |
| RoundTrip.AppendedNone | installer/elastiflow.py:125-126 | when no appended line assigns an attribute, reading back leaves it as it was |
| ElastiflowTable.EnvKey | installer/elastiflow.py:116 | the key written for an attribute is `ELASTIFLOW_` followed by its name in capitals |
| Elastiflow.ChainPrefix | installer/elastiflow.py:53-109 | every arm's prefix is `ELASTIFLOW_` + its suffix, has no `=` and no newline, and no other arm's prefix starts it |
| Elastiflow.RoutesTo | installer/elastiflow.py:53-109 | a line starting with an arm's own prefix is read by that arm and by no earlier one |
| Elastiflow.DefaultAttributes | installer/elastiflow.py:16-46 | every declared attribute has a value |
| Elastiflow.DefaultsSet | installer/elastiflow.py:16-46 | `__init__` sets exactly the 28 declared attributes, each to its default |
| Elastiflow.WrittenKeysTable | installer/elastiflow.py:115-117 | the written keys are distinct and one line each, and an attribute's written key is the one the chain reads exactly when the attribute is not one of the three misnamed ones |
| Elastiflow.ReadKeysTable | installer/elastiflow.py:53-109 | the keys the chain reads are distinct, and each reads back its own attribute |
| Elastiflow.LineAssigns | installer/elastiflow.py:53-109 | a written `KEY=value` line assigns an attribute exactly when it is that attribute's line and its key is read back; it then assigns `value`; a line whose key is not read matches no arm |
| Elastiflow.WrittenReadsBack | installer/elastiflow.py:111-128 | writing into a file the chain does not read and parsing from the defaults raises nothing; each attribute whose key reads back has its written value, every other has its default |
| ElastiflowConfig.ElastiflowConfigurator.constructor | installer/elastiflow.py:16-46 | the attributes are the declared defaults |
| ElastiflowConfig.ElastiflowConfigurator.ParseEnvironmentFile | installer/elastiflow.py:48-109 | the attributes and the IndexError (if any) are those of the chain parse over the file's lines from the current attributes; IOError without the file |
| ElastiflowConfig.ElastiflowConfigurator.WriteEnvironmentVariables | installer/elastiflow.py:111-128 | IOError without the file; otherwise `/etc/environment` is replaced by `Written` of the written keys, the attributes and its old lines, and nothing else changes |
| ElastiflowConfig.CollectVars | installer/elastiflow.py:115-117 | the loop builds the dict from each written key to its attribute's value, in declaration order |
| ElastiflowConfig.MisnamedKeysLost | installer/elastiflow.py:86-89 | after a write and a fresh read into a file the chain did not read, `zeek_ipv4_host`, `zeek_ipv4_port` and `elastiflow_es_host` keep their defaults and every other attribute comes back as written |
| ElastiflowConfig.CorrectedKeysReadBack | installer/elastiflow.py:108-117 | with each attribute written under the key the chain reads, every attribute comes back as written |
| ElastiflowSetup.Guard | installer/elastiflow.py:184-188 | the text only grows, it then contains the key, and it is unchanged exactly when it already contained the key |
| ElastiflowSetup.GuardedContains | installer/elastiflow.py:184-203 | after the guards the text still starts with the old text and contains every path variable |
| ElastiflowSetup.GuardedPresent | installer/elastiflow.py:184-203 | a text that already names every path variable is left as it is |
| ElastiflowSetup.GuardedIdempotent | installer/elastiflow.py:184-203 | running the four guards a second time changes nothing |
| ElastiflowSetup.AppendPathVariables | installer/elastiflow.py:184-203 | IOError without `/etc/environment`; otherwise its text after the four guards, each path under the install directory |
| ElastiflowSetup.WriteDefaults | installer/elastiflow.py:204 | a fresh configurator writes its defaults over `/etc/environment` |
| ElastiflowSetup.SetupEnvironment | installer/elastiflow.py:184-204 | the guarded text with the defaults written over it, or IOError without the file |
| Strings.IntToStringRoundTrip | lib/services/logstash.py:194-196 | `int(str(n) + whitespace)` is `n`, so an int setting written as text reads back as that int |
| Strings.SplitLinesConcat | lib/services/logstash.py:45 | `readlines()` of lines that each end with their only newline gives those lines back |

## Left out

- I/O appears only through a file-system map and through the answers of the operating system, given as inputs; these parts are not modelled:
  - `subprocess` calls (the `mkdir`s, the `runuser` launch, the `echo … >>` of the setup, whose effect is modelled as an append);
  - `multiprocessing.Process`, `time.sleep` and console messages;
  - `set_ownership_of_file` and `copytree`.
- The file-system map holds text already decoded. In Python 3 a text-mode read of undecodable bytes raises UnicodeDecodeError, a ValueError. `LogstashProcess.__init__` would catch it while reading the PID file and record -1, and every parser would let it propagate. The model has no such case.
- `time.time()` in `write_configs` is the `timestamp` parameter.
- `check_pid` answers are the `live` and `running` inputs. Whether `os.kill` raises is `Round.killRaises`.
- `readlines()` splits at `\n` only. Text mode's translation of `\r` and `\r\n` is not modelled. `strip()` removes only space and `\t` through `\r`. Python's `str.strip()` also removes `\x1c` through `\x1f`, `\x85`, `\xa0` and the other Unicode spaces; the model keeps those.
- `LogstashConfig.LogstashConfigurator.WriteConfigs`: the order in which `ls_config_options.items()` lists the keys is taken as a parameter, any enumeration of the keys. Python 3.7 lists them in insertion order, which is one such enumeration, so what is proved holds for it too. The model does not track the insertion order of `ls_config_options`.
- `LogstashConfig.LogstashConfigurator.SetPipelineBatchSize`: stores the decimal text of the count rather than a Python `int`. That text is what `write_configs` writes for it.
- `LogstashConfig.LogstashConfigurator.SetPipelineBatchDelay`: the same, for the delay.
- `ElastiflowTable.Defaults`: the defaults that are ints in the source are held as the text `str()` gives them.
- `Strings.ParseInt`: accepts ASCII digits only. From Python 3.6 on, `int()` also accepts `_` between digits (`1_0`) and the decimal digits of other scripts. For PID-file text holding those, `LogstashSupervisor.ReadPid` gives ValueError where Python gives a number.
- `ElastiflowSetup.Guard`: the appended line is `KEY=path` only for an install directory holding no `$`, backtick, `\`, `"` or newline. `sh` expands the first three inside the double quotes of `echo KEY="{}" >>`, a `"` ends the quoting, and dash's `echo` also interprets backslash escapes. The model appends the path as given.
- `LogstashConfig.TruncateToInt`: `gigs` is a real number. Floating-point rounding is not modelled, and neither is `int()` applied to a string.
- `LogstashSupervisor.LogstashProcess.Stop`: requires that some pass ends the loop. When a process never dies and `os.kill` never raises, the source loops forever, and that case is not modelled.
- `Elastiflow.WrittenReadsBack`, `ElastiflowConfig.MisnamedKeysLost` and `ElastiflowConfig.CorrectedKeysReadBack`: stated for values without `=`, newlines or surrounding whitespace. Only a file none of whose lines the chain reads yet is covered.
- `LogstashConfig.YamlRoundTrip` and `LogstashConfig.ConfigsReadBack`: stated for keys and values without `:`, `#`, quotes or newlines.
- `ElastiflowSetup.SetupEnvironment`: it is not proved that the four path variables survive the write of the defaults.
- The rest of the repository is not part of this model:
  - the installers (`LogstashInstaller`, `ElastiflowInstaller`), downloads and extraction, memory checks, `sysctl` tuning and plugin installation;
  - `install_logstash` and `uninstall_logstash`;
  - `lib/agent.py` and `installer/package_manager.py`.

## Findings

| source | as written | input that shows it | evidently intended | confidence | as-written member | corrected member |
|---|---|---|---|---|---|---|
| installer/elastiflow.py:86-89 | the reader's chain looks for `ELASTIFLOW_ZEEK_HOST`, `ELASTIFLOW_ZEEK_PORT` and `ELASTIFLOW_ES_HOST` (lines 86-89, 108-109), but the writer (lines 115-117) writes `ELASTIFLOW_ZEEK_IPV4_HOST`, `ELASTIFLOW_ZEEK_IPV4_PORT` and `ELASTIFLOW_ELASTIFLOW_ES_HOST` | set `zeek_ipv4_port` to `6000`, call `write_environment_variables` on an `/etc/environment` holding only `PATH=/usr/bin`, then parse into a fresh configurator: `zeek_ipv4_port` is back at `5044` | every attribute written is read back | high; not executed | ElastiflowConfig.MisnamedKeysLost | ElastiflowConfig.CorrectedKeysReadBack |
| installer/elastiflow.py:124 | `readlines()` keeps each line's newline and the loop appends another, so every untouched line is followed by an empty line, and the file grows by one line per line at each write | `/etc/environment` holding `PATH=/usr/bin` and a newline is written back as `PATH=/usr/bin`, a newline, then an empty line, followed by the appended keys | each untouched line written back once, unchanged | high; not executed | EnvironmentWriter.UntouchedLineGainsBlank | EnvironmentWriter.CorrectedWrittenLines |

In both rows the class itself follows the code as written. The corrected behaviour is proved by the same definitions, used with different arguments:

- `Written` and `WrittenReadsBack` take the key table as a parameter. They are applied to `WrittenKeys` for the keys as written, and to `ReadKeys` for the corrected keys.
- `Kept` writes each line with a single newline. `CorrectedText` is the writer with that change: `KeptRender` writes an untouched line with `KeptLine` in place of `line + '\n'`, and the rewrites and the appended keys are those of `WrittenText`. `CorrectedWrittenLines` is `WrittenLines` proved for it.
