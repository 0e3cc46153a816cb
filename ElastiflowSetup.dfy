/**
 * The end of `setup_logstash_elastiflow` (installer/elastiflow.py): four path
 * variables appended to `/etc/environment`, each only when the file's text does
 * not already contain its name, and then the defaults of a fresh configurator
 * written over the file.
 */
module ElastiflowSetup {
  import opened Wrappers
  import opened Strings
  import opened Elastiflow
  import opened ElastiflowConfig
  import LogstashConfig

  /** Each path variable and the subdirectory of the install directory it names,
      in the order they are checked. */
  const PathVariables: seq<(string, string)> := [
    ("ELASTIFLOW_DICT_PATH", "dictionaries"),
    ("ELASTIFLOW_TEMPLATE_PATH", "templates"),
    ("ELASTIFLOW_GEOIP_DB_PATH", "geoipdbs"),
    ("ELASTIFLOW_DEFINITION_PATH", "definitions")
  ]

  lemma ContainsPrefix(a: string, b: string, p: string)
    requires a <= b && Contains(a, p)
    ensures Contains(b, p)
  {
    assert b == a + b[|a|..];
    ContainsAppend(a, b[|a|..], p);
  }

  /** `if 'KEY' not in content: echo KEY="path" >> /etc/environment`; the shell
      drops the quotes and `echo` ends the line. The text only grows, it then
      contains the key, and it is left alone exactly when it already did. */
  function Guard(content: string, key: string, path: string): (r: string)
    ensures content <= r && Contains(r, key)
    ensures r == content <==> Contains(content, key)
  {
    if Contains(content, key) then content
    else
      ContainsInfix(content, key, "=" + path + "\n");
      assert content + key + ("=" + path + "\n") == content + key + "=" + path + "\n";
      content + key + "=" + path + "\n"
  }

  /** The first `n` guards in order, each path under the install directory `dir`. */
  function Guarded(content: string, dir: string, n: nat): string
    requires n <= |PathVariables|
  {
    if n == 0 then content
    else Guard(Guarded(content, dir, n - 1), PathVariables[n - 1].0, PathJoin(dir, PathVariables[n - 1].1))
  }

  /** After the guards the text still starts with what it was and contains every
      path variable. */
  lemma {:induction false} GuardedContains(content: string, dir: string, n: nat)
    requires n <= |PathVariables|
    ensures content <= Guarded(content, dir, n)
    ensures forall i :: 0 <= i < n ==> Contains(Guarded(content, dir, n), PathVariables[i].0)
  {
    if n > 0 {
      GuardedContains(content, dir, n - 1);
      var previous := Guarded(content, dir, n - 1);
      var current := Guard(previous, PathVariables[n - 1].0, PathJoin(dir, PathVariables[n - 1].1));
      assert current == Guarded(content, dir, n);
      forall i | 0 <= i < n - 1
        ensures Contains(current, PathVariables[i].0)
      {
        ContainsPrefix(previous, current, PathVariables[i].0);
      }
    }
  }

  /** A text that already contains every path variable is left as it is. */
  lemma {:induction false} GuardedPresent(content: string, dir: string, n: nat)
    requires n <= |PathVariables|
    requires forall i :: 0 <= i < n ==> Contains(content, PathVariables[i].0)
    ensures Guarded(content, dir, n) == content
  {
    if n > 0 {
      GuardedPresent(content, dir, n - 1);
    }
  }

  /** Running the guards a second time changes nothing. */
  lemma GuardedIdempotent(content: string, dir: string)
    ensures Guarded(Guarded(content, dir, 4), dir, 4) == Guarded(content, dir, 4)
  {
    GuardedContains(content, dir, 4);
    GuardedPresent(Guarded(content, dir, 4), dir, 4);
  }

  /** Lines 184-203: the four guards, each reading `/etc/environment` afresh and
      appending to it (here the text read is the one the previous step left);
      a missing file raises at the first read. */
  method AppendPathVariables(fs: LogstashConfig.FileSystem, dir: string) returns (r: Result<LogstashConfig.FileSystem>)
    ensures LogstashConfig.EnvironmentPath !in fs ==> r == Err(IOError)
    ensures LogstashConfig.EnvironmentPath in fs ==>
      r == Ok(fs[LogstashConfig.EnvironmentPath := Guarded(fs[LogstashConfig.EnvironmentPath], dir, 4)])
  {
    if LogstashConfig.EnvironmentPath !in fs {
      return Err(IOError);
    }
    var path := LogstashConfig.EnvironmentPath;
    var content := fs[path];
    content := Guard(content, PathVariables[0].0, PathJoin(dir, PathVariables[0].1));
    assert content == Guarded(fs[path], dir, 1);
    content := Guard(content, PathVariables[1].0, PathJoin(dir, PathVariables[1].1));
    assert content == Guarded(fs[path], dir, 2);
    content := Guard(content, PathVariables[2].0, PathJoin(dir, PathVariables[2].1));
    assert content == Guarded(fs[path], dir, 3);
    content := Guard(content, PathVariables[3].0, PathJoin(dir, PathVariables[3].1));
    assert content == Guarded(fs[path], dir, 4);
    return Ok(fs[path := content]);
  }

  /** Line 204: a fresh `ElastiflowConfigurator()` writing its defaults over the
      file. */
  method WriteDefaults(fs: LogstashConfig.FileSystem) returns (r: Result<LogstashConfig.FileSystem>)
    ensures LogstashConfig.EnvironmentPath !in fs ==> r == Err(IOError)
    ensures LogstashConfig.EnvironmentPath in fs ==>
      r == Ok(fs[LogstashConfig.EnvironmentPath := Written(WrittenKeys, DefaultAttributes(), SplitLines(fs[LogstashConfig.EnvironmentPath]))])
  {
    var configurator := new ElastiflowConfigurator();
    r := configurator.WriteEnvironmentVariables(fs);
  }

  /** Lines 184-204: the path variables, then the defaults written over the file. */
  method SetupEnvironment(fs: LogstashConfig.FileSystem, dir: string) returns (r: Result<LogstashConfig.FileSystem>)
    ensures LogstashConfig.EnvironmentPath !in fs ==> r == Err(IOError)
    ensures LogstashConfig.EnvironmentPath in fs ==>
      r == Ok(fs[LogstashConfig.EnvironmentPath :=
        Written(WrittenKeys, DefaultAttributes(), SplitLines(Guarded(fs[LogstashConfig.EnvironmentPath], dir, 4)))])
  {
    var paths := AppendPathVariables(fs, dir);
    if paths.Err? {
      return paths;
    }
    ghost var guarded := Guarded(fs[LogstashConfig.EnvironmentPath], dir, 4);
    assert paths.value == fs[LogstashConfig.EnvironmentPath := guarded];
    r := WriteDefaults(paths.value);
    Overwrite(fs, LogstashConfig.EnvironmentPath, guarded, Written(WrittenKeys, DefaultAttributes(), SplitLines(guarded)));
  }

  lemma Overwrite(fs: LogstashConfig.FileSystem, path: string, a: string, b: string)
    ensures fs[path := a][path := b] == fs[path := b]
  {
  }
}
