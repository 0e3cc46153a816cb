/**
 * The `ElastiflowConfigurator` object (installer/elastiflow.py): its 28
 * attributes, read from and written to `/etc/environment`; and what a write
 * followed by a fresh read gives back.
 */
module ElastiflowConfig {
  import opened Wrappers
  import opened Strings
  import opened EnvironmentFile
  import opened EnvironmentWriter
  import opened ElastiflowTable
  import opened Elastiflow
  import opened RoundTrip
  import LogstashConfig

  class ElastiflowConfigurator {
    /** The attributes, by name. */
    var attributes: map<string, string>

    predicate Valid()
      reads this
    {
      HasAttributes(attributes)
    }

    /** `__init__`: every declared attribute, and no other, at its default
        (`DefaultsSet`). */
    constructor()
      ensures Valid() && attributes == DefaultAttributes()
    {
      DefaultsSet();
      attributes := DefaultAttributes();
    }

    /** `_parse_environment_file`: the lines of `/etc/environment` through the
        `elif` chain, each match assigning its attribute; a matched line without
        `=` raises `IndexError`, leaving the assignments made before it. A
        missing file raises before anything is assigned. */
    method ParseEnvironmentFile(fs: LogstashConfig.FileSystem) returns (error: Option<Exception>)
      requires Valid()
      modifies this
      ensures Valid()
      ensures LogstashConfig.EnvironmentPath !in fs ==> error == Some(IOError) && attributes == old(attributes)
      ensures LogstashConfig.EnvironmentPath in fs ==>
        ParseOutcome(attributes, error) == ParseLines(Chain, old(attributes), SplitLines(fs[LogstashConfig.EnvironmentPath]))
    {
      if LogstashConfig.EnvironmentPath !in fs {
        return Some(IOError);
      }
      var lines := SplitLines(fs[LogstashConfig.EnvironmentPath]);
      var outcome := Parse(Chain, attributes, lines);
      ParseKeys(Chain, attributes, lines);
      attributes, error := outcome.state, outcome.error;
    }

    /** `write_environment_variables`: the dict `ELASTIFLOW_` + name in capitals
        to value, in declaration order; every line of `/etc/environment` whose
        key is still in the dict rewritten as `KEY=value` and the key popped;
        every line written back followed by a newline; the remaining keys
        appended. A missing file raises before anything is written. */
    method WriteEnvironmentVariables(fs: LogstashConfig.FileSystem) returns (r: Result<LogstashConfig.FileSystem>)
      requires Valid()
      ensures LogstashConfig.EnvironmentPath !in fs ==> r == Err(IOError)
      ensures LogstashConfig.EnvironmentPath in fs ==>
        r == Ok(fs[LogstashConfig.EnvironmentPath := Written(WrittenKeys, attributes, SplitLines(fs[LogstashConfig.EnvironmentPath]))])
    {
      if LogstashConfig.EnvironmentPath !in fs {
        return Err(IOError);
      }
      var lines := SplitLines(fs[LogstashConfig.EnvironmentPath]);
      var vars := CollectVars(attributes);
      var content, pending := RewriteLines(vars, lines);
      content := AppendPending(content, pending);
      return Ok(fs[LogstashConfig.EnvironmentPath := content]);
    }
  }

  /** `for var in vars(self)`: the dict from `ELASTIFLOW_` + each attribute's name
      in capitals to its value, in declaration order. */
  method CollectVars(attrs: map<string, string>) returns (vars: Dict)
    requires HasAttributes(attrs)
    ensures vars == VarsDict(WrittenKeys, attrs)
  {
    ghost var values := Values(attrs);
    vars := Dict([], map[]);
    var k := 0;
    while k < |Declared|
      invariant 0 <= k <= |Declared| == 28
      invariant vars == Collect(WrittenKeys[..k], values[..k])
    {
      CollectSnoc(WrittenKeys, values, k);
      assert WrittenKeys[k] == Lead + Upper(Declared[k]) && values[k] == attrs[Declared[k]];
      vars := Store(vars, Lead + Upper(Declared[k]), attrs[Declared[k]]);
      k := k + 1;
    }
    assert WrittenKeys[..k] == WrittenKeys && values[..k] == values;
  }

  /** Writing the attributes into a file none of whose lines the chain reads, and
      reading the result back into a fresh configurator: nothing raises, and
      every attribute comes back as written except `zeek_ipv4_host`,
      `zeek_ipv4_port` and `elastiflow_es_host`, whose written keys the chain
      does not read and which keep their defaults. */
  lemma MisnamedKeysLost(attrs: map<string, string>, content: string)
    requires CleanValues(attrs) && Quiet(Chain, SplitLines(content))
    ensures var r := ParseLines(Chain, DefaultAttributes(), SplitLines(Written(WrittenKeys, attrs, SplitLines(content))));
      r.error.None?
      && forall k :: 0 <= k < 28 ==>
           Declared[k] in r.state && r.state[Declared[k]] == if Misnamed(k) then Defaults[k] else attrs[Declared[k]]
  {
    WrittenKeysTable();
    SplitLinesAreReadLines(content);
    WrittenReadsBack(WrittenKeys, attrs, SplitLines(content));
  }

  /** With every attribute written under the key the chain reads for it, the same
      write and read give every attribute back as written. */
  lemma CorrectedKeysReadBack(attrs: map<string, string>, content: string)
    requires CleanValues(attrs) && Quiet(Chain, SplitLines(content))
    ensures var r := ParseLines(Chain, DefaultAttributes(), SplitLines(Written(ReadKeys, attrs, SplitLines(content))));
      r.error.None?
      && forall k :: 0 <= k < 28 ==> Declared[k] in r.state && r.state[Declared[k]] == attrs[Declared[k]]
  {
    ReadKeysTable();
    SplitLinesAreReadLines(content);
    WrittenReadsBack(ReadKeys, attrs, SplitLines(content));
  }
}
