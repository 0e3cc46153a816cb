/**
 * `ElastiflowConfigurator` (installer/elastiflow.py): 28 attributes with
 * defaults, read from `/etc/environment` through an `elif` chain of
 * `ELASTIFLOW_…` prefixes and written back as `ELASTIFLOW_` + the attribute's
 * name in capitals; and the four path variables `setup_logstash_elastiflow`
 * appends before it writes the defaults.
 */
module Elastiflow {
  import opened Wrappers
  import opened Strings
  import opened EnvironmentFile
  import opened EnvironmentWriter
  import opened ElastiflowTable
  import opened RoundTrip
  import LogstashConfig

  // ---------------------------------------------------------------------------
  // The chain's prefixes

  lemma LeadPrefix(x: string, y: string)
    ensures (Lead + x <= Lead + y) <==> x <= y
  {
    var a := Lead + x;
    var b := Lead + y;
    if x <= y {
      assert b[..|a|] == a;
    }
    if a <= b {
      forall i | 0 <= i < |x|
        ensures x[i] == y[i]
      {
        assert x[i] == a[|Lead| + i] && y[i] == b[|Lead| + i];
      }
    }
  }

  /** A prefix of `b + rest` is a prefix of `b` or has `b` as a prefix. */
  lemma PrefixOfExtension(a: string, b: string, rest: string)
    requires a <= b + rest
    ensures a <= b || b <= a
  {
    if |a| <= |b| {
      assert a == (b + rest)[..|a|] == b[..|a|];
    } else {
      assert b == (b + rest)[..|b|] == a[..|b|];
    }
  }

  predicate NoBreak(c: char) {
    c != '=' && c != '\n'
  }

  /** Arm `j`'s prefix: `ELASTIFLOW_` and its suffix, with no `=` and no line
      break, starting with `E`, and not having any other arm's prefix as its own. */
  lemma ChainPrefix(j: nat)
    requires j < 28
    ensures |Chain| == 28 && Chain[j].prefix == Lead + Suffixes[j] && Chain[j].attribute == Attributes[j]
    ensures '=' !in Chain[j].prefix && '\n' !in Chain[j].prefix && Chain[j].prefix[0] == 'E'
    ensures forall i :: 0 <= i < 28 && i != j ==> !(Chain[i].prefix <= Chain[j].prefix)
  {
    ArmFacts(j);
    var p := Chain[j].prefix;
    assert forall k :: 0 <= k < |p| ==> NoBreak(p[k]) by {
      forall k | 0 <= k < |p| ensures NoBreak(p[k]) {
        if k >= |Lead| {
          assert p[k] == Suffixes[j][k - |Lead|];
        }
      }
    }
    forall i | 0 <= i < 28 && i != j
      ensures !(Chain[i].prefix <= p)
    {
      LeadPrefix(Suffixes[i], Suffixes[j]);
    }
  }

  /** An assignment to arm `j`'s own prefix is read by arm `j`. */
  lemma RoutesTo(j: nat, rest: string)
    requires j < 28
    ensures FirstMatch(Chain, Chain[j].prefix + rest) == Some(j)
  {
    ChainPrefix(j);
    var line := Chain[j].prefix + rest;
    forall i | 0 <= i < 28 && i != j
      ensures !(Chain[i].prefix <= line)
    {
      ChainPrefix(i);
      if Chain[i].prefix <= line {
        PrefixOfExtension(Chain[i].prefix, Chain[j].prefix, rest);
      }
    }
  }

  /** A key no arm reads: no prefix starts it and it starts no prefix. */
  predicate NotRead(key: string) {
    forall i :: 0 <= i < |Suffixes| ==> !(Lead + Suffixes[i] <= key) && !(key <= Lead + Suffixes[i])
  }

  /** Whatever follows a key no arm reads, the line matches no arm. */
  lemma NotReadLine(key: string, rest: string)
    requires NotRead(key)
    ensures FirstMatch(Chain, key + rest).None?
  {
    forall i | 0 <= i < |Chain|
      ensures !(Chain[i].prefix <= key + rest)
    {
      ChainPrefix(i);
      if Chain[i].prefix <= key + rest {
        PrefixOfExtension(Chain[i].prefix, key, rest);
      }
    }
  }

  // ---------------------------------------------------------------------------
  // Attribute names and keys

  /** Different attributes have different names in capitals. */
  lemma UpperDistinct(k: nat, k': nat)
    requires k < 28 && k' < 28 && k != k'
    ensures Upper(Declared[k]) != Upper(Declared[k'])
  {
    KeyFacts(k);
    KeyFacts(k');
    ArmOfFacts(k);
    ArmOfFacts(k');
    if Misnamed(k) && Misnamed(k') {
      MisnamedDistinct();
    } else if Misnamed(k) {
      assert !(Suffixes[ArmOf[k']] <= Upper(Declared[k]));
    } else if Misnamed(k') {
      assert !(Suffixes[ArmOf[k]] <= Upper(Declared[k']));
    } else {
      ArmFacts(ArmOf[k]);
      assert !(Suffixes[ArmOf[k']] <= Suffixes[ArmOf[k]]);
    }
  }

  lemma DeclaredDistinct()
    ensures Distinct(Declared)
  {
    KeyFacts(0);
    forall i, j | 0 <= i < j < |Declared|
      ensures Declared[i] != Declared[j]
    {
      UpperDistinct(i, j);
    }
  }

  /** The keys `write_environment_variables` writes, attribute by attribute. */
  const WrittenKeys: seq<string> := seq(28, k requires 0 <= k < 28 => EnvKey(Declared[k]))

  /** The key arm `ArmOf[k]` reads, which assigns attribute `k`. */
  function ReadKey(k: nat): string
    requires k < 28
  {
    Lead + Suffixes[ArmOf[k]]
  }

  /** The keys `_parse_environment_file` reads, attribute by attribute. */
  const ReadKeys: seq<string> := seq(28, k requires 0 <= k < 28 => ReadKey(k))

  /** A table of keys to write, one per attribute: distinct, without line
      breaks, and each either the key the chain reads for that attribute or one
      the chain does not read at all. */
  predicate KeyTable(keys: seq<string>) {
    |keys| == 28 && Distinct(keys)
    && forall k :: 0 <= k < 28 ==> '\n' !in keys[k] && (keys[k] == ReadKey(k) || NotRead(keys[k]))
  }

  /** Attribute `k`'s key in the table is the one the chain reads for it. */
  predicate ReadsBack(keys: seq<string>, k: nat)
    requires k < 28 && |keys| == 28
  {
    keys[k] == ReadKey(k)
  }

  /** The key read for attribute `k` lands on arm `ArmOf[k]`, which assigns `Declared[k]`. */
  lemma ReadKeyFacts(k: nat)
    requires k < 28
    ensures ArmOf[k] < 28 && ReadKey(k) == Chain[ArmOf[k]].prefix
    ensures Chain[ArmOf[k]].attribute == Declared[k] && '\n' !in ReadKey(k) && '=' !in ReadKey(k)
  {
    ArmOfFacts(k);
    ChainPrefix(ArmOf[k]);
  }

  /** The written key of an attribute that is not misnamed is the key the chain
      reads for it; the written key of a misnamed one is read by no arm. */
  lemma WrittenKeyFacts(k: nat)
    requires k < 28
    ensures WrittenKeys[k] == Lead + Upper(Declared[k]) && '\n' !in WrittenKeys[k]
    ensures !Misnamed(k) ==> WrittenKeys[k] == ReadKey(k)
    ensures Misnamed(k) ==> NotRead(WrittenKeys[k])
  {
    KeyFacts(k);
    ReadKeyFacts(k);
    var u := Upper(Declared[k]);
    if Misnamed(k) {
      forall i | 0 <= i < |Suffixes|
        ensures !(Lead + Suffixes[i] <= Lead + u) && !(Lead + u <= Lead + Suffixes[i])
      {
        LeadPrefix(Suffixes[i], u);
        LeadPrefix(u, Suffixes[i]);
      }
      assert KeyChars(u);
    } else {
      ArmFacts(ArmOf[k]);
      assert KeyChars(u);
    }
    assert forall c :: 0 <= c < |u| ==> NoBreak(u[c]);
    assert forall c :: 0 <= c < |Lead| ==> NoBreak(Lead[c]);
  }

  /** The written keys are a key table in which exactly the misnamed attributes
      are not read back. */
  lemma WrittenKeysTable()
    ensures KeyTable(WrittenKeys)
    ensures forall k :: 0 <= k < 28 ==> (ReadsBack(WrittenKeys, k) <==> !Misnamed(k))
  {
    forall k | 0 <= k < 28
      ensures '\n' !in WrittenKeys[k] && (WrittenKeys[k] == ReadKey(k) || NotRead(WrittenKeys[k]))
      ensures ReadsBack(WrittenKeys, k) <==> !Misnamed(k)
    {
      WrittenKeyFacts(k);
      if Misnamed(k) {
        ReadKeyFacts(k);
        assert Chain[ArmOf[k]].prefix <= ReadKey(k);
      }
    }
    forall i, j | 0 <= i < j < 28
      ensures WrittenKeys[i] != WrittenKeys[j]
    {
      WrittenKeyFacts(i);
      WrittenKeyFacts(j);
      UpperDistinct(i, j);
      LeadPrefix(Upper(Declared[i]), Upper(Declared[j]));
    }
  }

  /** The keys the chain reads are a key table, and every attribute is read back. */
  lemma ReadKeysTable()
    ensures KeyTable(ReadKeys)
    ensures forall k :: 0 <= k < 28 ==> ReadsBack(ReadKeys, k)
  {
    forall k | 0 <= k < 28
      ensures '\n' !in ReadKeys[k]
    {
      ReadKeyFacts(k);
    }
    forall i, j | 0 <= i < j < 28
      ensures ReadKeys[i] != ReadKeys[j]
    {
      ReadKeyFacts(i);
      ReadKeyFacts(j);
      ArmOfFacts(i);
      ArmOfFacts(j);
      ChainPrefix(ArmOf[j]);
    }
  }

  // ---------------------------------------------------------------------------
  // The attributes and the dict `write_environment_variables` builds

  /** Every declared attribute has a value. */
  predicate HasAttributes(attrs: map<string, string>) {
    forall k :: 0 <= k < |Declared| ==> Declared[k] in attrs
  }

  /** The attributes as `__init__` leaves them. */
  function DefaultAttributes(): (a: map<string, string>)
    ensures HasAttributes(a)
  {
    Collect(Declared, Defaults).values
  }

  /** `__init__` gives every declared attribute, and only those, its default. */
  lemma DefaultsSet()
    ensures forall x :: x in DefaultAttributes() <==> x in Declared
    ensures forall k :: 0 <= k < 28 ==> Declared[k] in DefaultAttributes() && DefaultAttributes()[Declared[k]] == Defaults[k]
    ensures HasAttributes(DefaultAttributes())
  {
    DeclaredDistinct();
    CollectContents(Declared, Defaults);
  }

  /** The dict built from the attributes, with `keys[k]` as the key of
      attribute `k`. */
  function VarsDict(keys: seq<string>, attrs: map<string, string>): Dict
    requires |keys| == 28 && HasAttributes(attrs)
  {
    Collect(keys, Values(attrs))
  }

  /** The attributes' values in declaration order. */
  function Values(attrs: map<string, string>): (vs: seq<string>)
    requires HasAttributes(attrs)
    ensures |vs| == 28 && forall k :: 0 <= k < 28 ==> vs[k] == attrs[Declared[k]]
  {
    seq(28, k requires 0 <= k < 28 => attrs[Declared[k]])
  }

  /** The new text of `/etc/environment`: its lines rewritten and the remaining
      keys appended, with `keys[k]` naming attribute `k`. */
  function Written(keys: seq<string>, attrs: map<string, string>, lines: seq<string>): string
    requires |keys| == 28 && HasAttributes(attrs)
  {
    WrittenText(VarsDict(keys, attrs), lines)
  }

  // ---------------------------------------------------------------------------
  // Reading the written file back

  /** A value that reads back as itself from a `KEY=value` line. */
  predicate Clean(v: string) {
    '=' !in v && '\n' !in v && Trimmed(v)
  }

  predicate CleanValues(attrs: map<string, string>) {
    HasAttributes(attrs) && forall k :: 0 <= k < |Declared| ==> Clean(attrs[Declared[k]])
  }

  /** Every arm's prefix is non-empty and holds no line break. */
  lemma ChainBreakless()
    ensures Breakless(Chain)
  {
    forall i | 0 <= i < |Chain|
      ensures Chain[i].prefix != [] && '\n' !in Chain[i].prefix
    {
      ChainPrefix(i);
    }
  }

  /** A `KEY=value` line written for attribute `j` assigns attribute `k` exactly
      when `j` is `k` and its key is the one the chain reads for it; the value
      it assigns is then `v`. A line whose key the chain does not read matches
      no arm at all. */
  lemma LineAssigns(keys: seq<string>, j: nat, v: string, k: nat)
    requires KeyTable(keys) && j < 28 && k < 28 && Clean(v)
    ensures var line := LogstashConfig.Assignment(keys[j], v);
      (Assigns(Chain, line, Declared[k]) <==> j == k && ReadsBack(keys, k))
      && (ReadsBack(keys, j) ==> AssignedValue(line) == Ok(v))
      && (!ReadsBack(keys, j) ==> FirstMatch(Chain, line).None?)
  {
    var line := LogstashConfig.Assignment(keys[j], v);
    assert line == keys[j] + ("=" + v + "\n");
    if ReadsBack(keys, j) {
      ReadKeyFacts(j);
      RoutesTo(ArmOf[j], "=" + v + "\n");
      AssignmentReadsBack(keys[j], v, "\n");
      DeclaredDistinct();
    } else {
      NotReadLine(keys[j], "=" + v + "\n");
    }
  }

  /** Where a foreign file has a line with one of the keys, the chain does not
      read that key. */
  lemma ForeignKey(keys: seq<string>, lines: seq<string>, i: nat, j: nat)
    requires KeyTable(keys) && Quiet(Chain, lines) && i < |lines| && j < 28
    requires '=' in lines[i] && KeyOf(lines[i]) == keys[j]
    ensures !ReadsBack(keys, j)
  {
    ReadKeyFacts(j);
  }

  /** The loop over a file no arm reads writes lines no arm reads. */
  lemma WrittenOutputQuiet(keys: seq<string>, attrs: map<string, string>, lines: seq<string>)
    requires KeyTable(keys) && CleanValues(attrs) && IsReadLines(lines) && Quiet(Chain, lines)
    ensures Quiet(Chain, OutputLines(Upsert(VarsDict(keys, attrs), lines).segments))
  {
    var d := VarsDict(keys, attrs);
    CollectContents(keys, Values(attrs));
    forall i | 0 <= i < |lines|
      ensures RewriteQuiet(Chain, d, lines[i])
    {
      if '=' in lines[i] && KeyOf(lines[i]) in d.values {
        var j :| 0 <= j < 28 && keys[j] == KeyOf(lines[i]);
        ForeignKey(keys, lines, i, j);
        LineAssigns(keys, j, attrs[Declared[j]], j);
      }
    }
    ChainBreakless();
    RewrittenQuiet(Chain, d, lines);
  }

  /** A key still pending after the loop over a foreign file is the key of some
      attribute `j`, with that attribute's value; its line assigns attribute `k`
      exactly when it is `k`'s key and the chain reads it. */
  lemma PendingAssigns(keys: seq<string>, attrs: map<string, string>, lines: seq<string>, k: nat, key: string)
    requires KeyTable(keys) && CleanValues(attrs) && k < 28
    requires key in Upsert(VarsDict(keys, attrs), lines).pending.values
    ensures var p := Upsert(VarsDict(keys, attrs), lines).pending;
      Assigns(Chain, LogstashConfig.Assignment(key, p.values[key]), Declared[k]) <==> key == keys[k] && ReadsBack(keys, k)
  {
    var d := VarsDict(keys, attrs);
    var p := Upsert(d, lines).pending;
    CollectContents(keys, Values(attrs));
    UpsertSpec(d, lines);
    var j :| 0 <= j < 28 && keys[j] == key;
    assert p.values[key] == attrs[Declared[j]];
    LineAssigns(keys, j, attrs[Declared[j]], k);
  }

  /** Reading back the appended lines, attribute by attribute. */
  lemma AppendedAttribute(keys: seq<string>, attrs: map<string, string>, lines: seq<string>, state: map<string, string>, k: nat)
    requires KeyTable(keys) && CleanValues(attrs) && Quiet(Chain, lines) && k < 28
    ensures var p := Upsert(VarsDict(keys, attrs), lines).pending;
      var r := ParseLines(Chain, state, AssignmentLines(p.keys, p.values)).state;
      if ReadsBack(keys, k) then Declared[k] in r && r[Declared[k]] == attrs[Declared[k]]
      else (Declared[k] in r <==> Declared[k] in state) && (Declared[k] in state ==> r[Declared[k]] == state[Declared[k]])
  {
    var d := VarsDict(keys, attrs);
    var p := Upsert(d, lines).pending;
    forall key | key in p.values
      ensures Assigns(Chain, LogstashConfig.Assignment(key, p.values[key]), Declared[k]) <==> key == keys[k] && ReadsBack(keys, k)
    {
      PendingAssigns(keys, attrs, lines, k, key);
    }
    if ReadsBack(keys, k) {
      CollectContents(keys, Values(attrs));
      ReadKeyFacts(k);
      PrefixPending(Chain, d, lines, ArmOf[k]);
      LineAssigns(keys, k, attrs[Declared[k]], k);
      AppendedLast(Chain, state, p, Declared[k], keys[k], attrs[Declared[k]]);
    } else {
      AppendedNone(Chain, state, p, Declared[k]);
    }
  }

  /** Writing the attributes into a file none of whose lines the chain reads, and
      reading the result back from the defaults, gives every attribute whose key
      the chain reads its written value, and leaves every other attribute at its
      default; nothing raises. */
  lemma WrittenReadsBack(keys: seq<string>, attrs: map<string, string>, lines: seq<string>)
    requires KeyTable(keys) && CleanValues(attrs) && IsReadLines(lines) && Quiet(Chain, lines)
    ensures var r := ParseLines(Chain, DefaultAttributes(), SplitLines(Written(keys, attrs, lines)));
      r.error.None?
      && forall k :: 0 <= k < 28 ==>
           Declared[k] in r.state && r.state[Declared[k]] == if ReadsBack(keys, k) then attrs[Declared[k]] else Defaults[k]
  {
    var d := VarsDict(keys, attrs);
    var p := Upsert(d, lines);
    CollectContents(keys, Values(attrs));
    assert OneLine(d);
    WrittenLines(d, lines);
    WrittenOutputQuiet(keys, attrs, lines);
    var out := OutputLines(p.segments);
    var a := AssignmentLines(p.pending.keys, p.pending.values);
    ParseAfterNoMatch(Chain, DefaultAttributes(), out, a);
    AppendedNoError(Chain, DefaultAttributes(), p.pending);
    DefaultsSet();
    forall k | 0 <= k < 28
      ensures var r := ParseLines(Chain, DefaultAttributes(), a).state;
        Declared[k] in r && r[Declared[k]] == if ReadsBack(keys, k) then attrs[Declared[k]] else Defaults[k]
    {
      AppendedAttribute(keys, attrs, lines, DefaultAttributes(), k);
    }
  }
}
