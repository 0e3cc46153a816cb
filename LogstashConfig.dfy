/**
 * `LogstashConfigurator`: reading and writing `logstash.yml` and `jvm.options`
 * in a Logstash configuration directory, and reading JAVA_HOME, LS_PATH_CONF
 * and LS_HOME from `/etc/environment`.
 *
 * The file system is a map from path to file contents; `readlines()` of a file
 * is `SplitLines` of its contents.
 */
module LogstashConfig {
  import opened Wrappers
  import opened Strings
  import EnvironmentFile

  type FileSystem = map<string, string>

  const EnvironmentPath := "/etc/environment"

  function YamlPath(dir: string): string { PathJoin(dir, "logstash.yml") }
  function JvmPath(dir: string): string { PathJoin(dir, "jvm.options") }

  /** The two configuration files of a directory are different files. */
  lemma {:induction false} ConfigPathsDiffer(dir: string)
    ensures YamlPath(dir) != JvmPath(dir)
  {
    var y, j := YamlPath(dir), JvmPath(dir);
    if |y| == |j| {
      assert y[|y| - 1] == 'l' && j[|j| - 1] == 's';
    }
  }

  /** Python's `d.get(k)`. */
  function Get(m: map<string, string>, k: string): (r: Option<string>)
    ensures r.Some? <==> k in m
    ensures r.Some? ==> r.value == m[k]
  {
    if k in m then Some(m[k]) else None
  }

  predicate IsComment(line: string) {
    "#" <= line
  }

  // ---------------------------------------------------------------------------
  // logstash.yml

  /** A line the parser reads as `key: value`. */
  predicate IsEntry(line: string) {
    !IsComment(line) && ':' in line
  }

  /** `str(v).strip().replace('"','').replace("'",'')`. */
  function CleanValue(v: string): (r: string)
    ensures '"' !in r && '\'' !in r
  {
    RemoveChar(RemoveChar(Strip(v), '"'), '\'')
  }

  /** The parts of an entry line's stripped text split at `:`; there are as many
      colons in it as in the line itself. */
  function EntryParts(line: string): (parts: seq<string>)
    requires IsEntry(line)
    ensures |parts| == Count(line, ':') + 1 >= 2
  {
    StripCount(line, ':');
    Split(Strip(line), ':')
  }

  function EntryKey(line: string): string
    requires IsEntry(line)
  {
    EntryParts(line)[0]
  }

  function EntryValue(line: string): string
    requires IsEntry(line)
  {
    CleanValue(EntryParts(line)[1])
  }

  /** One iteration of the `_parse_logstashyaml` loop: `k, v = line.strip().split(':')`
      raises a ValueError unless the split has exactly two parts. */
  function YamlStep(options: map<string, string>, line: string): Result<map<string, string>> {
    if !IsEntry(line) then Ok(options)
    else if |EntryParts(line)| != 2 then Err(ValueError)
    else Ok(options[EntryKey(line) := EntryValue(line)])
  }

  /** The dictionary built from `lines`, read in order. */
  function YamlFold(lines: seq<string>): Result<map<string, string>>
    decreases |lines|
  {
    if lines == [] then Ok(map[])
    else match YamlFold(lines[..|lines| - 1])
      case Err(e) => Err(e)
      case Ok(m) => YamlStep(m, lines[|lines| - 1])
  }

  /** `_parse_logstashyaml`: a missing `logstash.yml` gives an empty dictionary. */
  function YamlOptions(fs: FileSystem, dir: string): Result<map<string, string>> {
    if YamlPath(dir) !in fs then Ok(map[]) else YamlFold(SplitLines(fs[YamlPath(dir)]))
  }

  /** The `_parse_logstashyaml` loop. */
  method ParseLogstashYaml(fs: FileSystem, dir: string) returns (r: Result<map<string, string>>)
    ensures YamlPath(dir) !in fs ==> r == Ok(map[])
    ensures r == YamlOptions(fs, dir)
  {
    var options: map<string, string> := map[];
    if YamlPath(dir) !in fs {
      return Ok(options);
    }
    var lines := SplitLines(fs[YamlPath(dir)]);
    var i := 0;
    while i < |lines|
      invariant 0 <= i <= |lines|
      invariant YamlFold(lines[..i]) == Ok(options)
    {
      assert lines[..i + 1][..i] == lines[..i];
      var line := lines[i];
      if IsEntry(line) {
        var parts := EntryParts(line);
        if |parts| != 2 {
          YamlFoldStopsAtError(lines, i + 1);
          return Err(ValueError);
        }
        options := options[parts[0] := CleanValue(parts[1])];
      }
      i := i + 1;
    }
    assert lines[..i] == lines;
    return Ok(options);
  }

  lemma {:induction false} YamlFoldStopsAtError(lines: seq<string>, k: nat)
    requires k <= |lines| && YamlFold(lines[..k]).Err?
    ensures YamlFold(lines) == YamlFold(lines[..k])
    decreases |lines| - k
  {
    if k < |lines| {
      assert lines[..k + 1][..k] == lines[..k];
      YamlFoldStopsAtError(lines, k + 1);
    } else {
      assert lines[..k] == lines;
    }
  }

  /** The fold as the reading of all lines but the last, then the last. */
  lemma YamlFoldLast(lines: seq<string>)
    requires lines != []
    ensures YamlFold(lines) == match YamlFold(lines[..|lines| - 1])
      case Err(e) => Err(e)
      case Ok(m) => YamlStep(m, lines[|lines| - 1])
  {
  }

  /** An entry line with two or more colons. */
  predicate Malformed(line: string) {
    IsEntry(line) && Count(line, ':') >= 2
  }

  /** A line fails exactly when it is malformed, and then with a ValueError. */
  lemma YamlStepError(options: map<string, string>, line: string)
    ensures YamlStep(options, line).Err? <==> Malformed(line)
    ensures YamlStep(options, line).Err? ==> YamlStep(options, line).error == ValueError
  {
  }

  /** When parsing fails, it fails with a ValueError, at a malformed line. */
  lemma {:induction false} YamlErrorAt(lines: seq<string>)
    requires YamlFold(lines).Err?
    ensures YamlFold(lines).error == ValueError
    ensures exists i :: 0 <= i < |lines| && Malformed(lines[i])
    decreases |lines|
  {
    var n := |lines| - 1;
    var init := lines[..n];
    YamlFoldLast(lines);
    if YamlFold(init).Err? {
      YamlErrorAt(init);
      var i :| 0 <= i < n && Malformed(init[i]);
      assert lines[i] == init[i];
    } else {
      YamlStepError(YamlFold(init).value, lines[n]);
      assert Malformed(lines[n]);
    }
  }

  /** A malformed line makes parsing fail. */
  lemma {:induction false} YamlMalformedAt(lines: seq<string>, i: nat)
    requires i < |lines| && Malformed(lines[i])
    ensures YamlFold(lines).Err?
    decreases |lines|
  {
    var n := |lines| - 1;
    var init := lines[..n];
    YamlFoldLast(lines);
    if i < n {
      assert init[i] == lines[i];
      YamlMalformedAt(init, i);
    } else if YamlFold(init).Ok? {
      YamlStepError(YamlFold(init).value, lines[n]);
    }
  }

  /** Parsing fails exactly when some entry line holds two or more colons, and
      the failure is the ValueError of the `k, v = …` unpacking. */
  lemma YamlErrorIff(lines: seq<string>)
    ensures YamlFold(lines).Err? <==> exists i :: 0 <= i < |lines| && Malformed(lines[i])
    ensures YamlFold(lines).Err? ==> YamlFold(lines).error == ValueError
  {
    if YamlFold(lines).Err? {
      YamlErrorAt(lines);
    }
    if i :| 0 <= i < |lines| && Malformed(lines[i]) {
      YamlMalformedAt(lines, i);
    }
  }

  /** Every key of a parsed dictionary comes from an entry line: comments and
      lines without a colon add nothing. */
  lemma {:induction false} YamlKeysFromEntries(lines: seq<string>)
    requires YamlFold(lines).Ok?
    ensures forall k :: k in YamlFold(lines).value ==>
      exists i :: 0 <= i < |lines| && IsEntry(lines[i]) && EntryKey(lines[i]) == k
    decreases |lines|
  {
    if lines != [] {
      var init := lines[..|lines| - 1];
      YamlFoldLast(lines);
      YamlKeysFromEntries(init);
      assert forall i :: 0 <= i < |init| ==> init[i] == lines[i];
    }
  }

  /** The last entry line for a key decides its value (last write wins). */
  lemma {:induction false} YamlLastEntryWins(lines: seq<string>, i: nat)
    requires YamlFold(lines).Ok?
    requires i < |lines| && IsEntry(lines[i])
    requires forall j :: i < j < |lines| && IsEntry(lines[j]) ==> EntryKey(lines[j]) != EntryKey(lines[i])
    ensures EntryKey(lines[i]) in YamlFold(lines).value
    ensures YamlFold(lines).value[EntryKey(lines[i])] == EntryValue(lines[i])
    decreases |lines|
  {
    var n := |lines| - 1;
    var init := lines[..n];
    YamlFoldLast(lines);
    assert YamlFold(init).Ok?;
    var before := YamlFold(init).value;
    if i < n {
      assert forall j :: i < j < n ==> init[j] == lines[j];
      assert init[i] == lines[i];
      YamlLastEntryWins(init, i);
      YamlStepKeeps(before, lines[n], EntryKey(lines[i]));
    } else {
      YamlStepSets(before, lines[n]);
    }
  }

  /** An entry line that parses stores its value under its key. */
  lemma YamlStepSets(options: map<string, string>, line: string)
    requires YamlStep(options, line).Ok? && IsEntry(line)
    ensures EntryKey(line) in YamlStep(options, line).value
    ensures YamlStep(options, line).value[EntryKey(line)] == EntryValue(line)
  {
  }

  /** A line that is not an entry for `key` leaves `key` as it was. */
  lemma YamlStepKeeps(options: map<string, string>, line: string, key: string)
    requires YamlStep(options, line).Ok? && key in options
    requires IsEntry(line) ==> EntryKey(line) != key
    ensures key in YamlStep(options, line).value
    ensures YamlStep(options, line).value[key] == options[key]
  {
  }

  // ---------------------------------------------------------------------------
  // Writing logstash.yml

  /** The line `write_configs` writes for one entry: `'{}: {}\n'.format(k, v)`. */
  function YamlLine(k: string, v: string): string {
    k + ": " + v + "\n"
  }

  /** The lines written for the keys in `order`, the dictionary's iteration order. */
  function YamlLines(m: map<string, string>, order: seq<string>): (lines: seq<string>)
    requires forall i :: 0 <= i < |order| ==> order[i] in m
    ensures |lines| == |order|
  {
    seq(|order|, i requires 0 <= i < |order| => YamlLine(order[i], m[order[i]]))
  }

  /** `order` lists every key of `m` exactly once, as `m.items()` does. */
  ghost predicate Enumerates(order: seq<string>, m: map<string, string>) {
    (forall k :: k in m <==> k in order)
    && forall i, j :: 0 <= i < j < |order| ==> order[i] != order[j]
  }

  /** A key that reads back as itself: no colon, newline, leading `#` or surrounding whitespace. */
  predicate CleanKey(k: string) {
    Trimmed(k) && ':' !in k && '\n' !in k && (k == [] || k[0] != '#')
  }

  /** A value that reads back as itself: additionally no quote characters. */
  predicate CleanYamlValue(v: string) {
    Trimmed(v) && ':' !in v && '\n' !in v && '"' !in v && '\'' !in v
  }

  /** What follows the colon in a written line, once the line is stripped. */
  function Gap(v: string): string {
    if v == [] then [] else " " + v
  }

  /** The whitespace a written line ends with. */
  function Tail(v: string): string {
    if v == [] then " \n" else "\n"
  }

  lemma YamlLineSplits(k: string, v: string)
    ensures YamlLine(k, v) == k + [':'] + Gap(v) + Tail(v) && AllSpace(Tail(v))
  {
  }

  lemma StrippedTrimmed(k: string, v: string)
    requires CleanKey(k) && CleanYamlValue(v)
    ensures Trimmed(k + [':'] + Gap(v))
  {
    var stripped := k + [':'] + Gap(v);
    if v != [] {
      assert stripped[|stripped| - 1] == v[|v| - 1];
    }
    if k != [] {
      assert stripped[0] == k[0];
    }
  }

  /** Stripping a written line drops its newline, and the space too when the value is empty. */
  lemma YamlLineStrip(k: string, v: string)
    requires CleanKey(k) && CleanYamlValue(v)
    ensures Strip(YamlLine(k, v)) == k + [':'] + Gap(v)
  {
    YamlLineSplits(k, v);
    StrippedTrimmed(k, v);
    StripTrailingSpace(k + [':'] + Gap(v), Tail(v));
  }

  /** A written line is one line of the file, and an entry. */
  lemma YamlLineShape(k: string, v: string)
    requires CleanKey(k) && CleanYamlValue(v)
    ensures IsLine(YamlLine(k, v)) && IsEntry(YamlLine(k, v))
  {
    var line := YamlLine(k, v);
    assert line == k + ": " + v + "\n";
    assert line[|k|] == ':';
    assert line[..|line| - 1] == k + ": " + v;
    assert '\n' !in ": ";
    assert !IsComment(line) by {
      if k != [] {
        assert line[0] == k[0];
      }
    }
  }

  /** The written line's parts are the key and the gap before the value. */
  lemma YamlLineParts(k: string, v: string)
    requires CleanKey(k) && CleanYamlValue(v)
    ensures IsEntry(YamlLine(k, v)) && EntryParts(YamlLine(k, v)) == [k, Gap(v)]
  {
    var line := YamlLine(k, v);
    YamlLineShape(k, v);
    YamlLineStrip(k, v);
    assert ':' !in Gap(v);
    SplitTwo(k, Gap(v));
  }

  /** `key:rest` splits at its one colon into two parts. */
  lemma SplitTwo(k: string, g: string)
    requires ':' !in k && ':' !in g
    ensures Split(k + [':'] + g, ':') == [k, g]
  {
    assert Split(g, ':') == [g];
    SplitAt(k, ':', g);
  }

  /** A written line is an entry carrying exactly the key and value written. */
  lemma YamlLineEntry(k: string, v: string)
    requires CleanKey(k) && CleanYamlValue(v)
    ensures IsEntry(YamlLine(k, v)) && |EntryParts(YamlLine(k, v))| == 2
    ensures EntryKey(YamlLine(k, v)) == k && EntryValue(YamlLine(k, v)) == v
  {
    var line := YamlLine(k, v);
    YamlLineParts(k, v);
    var parts := EntryParts(line);
    assert parts[0] == k && parts[1] == Gap(v);
    GapCleans(v);
  }

  lemma GapCleans(v: string)
    requires CleanYamlValue(v)
    ensures CleanValue(Gap(v)) == v
  {
    assert Strip(Gap(v)) == v by {
      if v != [] {
        LStripSpacePrefix(" ", v);
        StripTrimmed(v);
      }
    }
    assert RemoveChar(v, '"') == v;
  }

  /** A written entry line is read back as that entry. */
  lemma YamlLineReadsBack(options: map<string, string>, k: string, v: string)
    requires CleanKey(k) && CleanYamlValue(v)
    ensures YamlStep(options, YamlLine(k, v)) == Ok(options[k := v])
  {
    YamlLineEntry(k, v);
  }

  /** The lines written for `order` carry each listed key's value. */
  lemma {:induction false} YamlLinesRead(m: map<string, string>, order: seq<string>)
    requires forall i :: 0 <= i < |order| ==> order[i] in m
    requires forall k :: k in m ==> CleanKey(k) && CleanYamlValue(m[k])
    ensures YamlFold(YamlLines(m, order)) == Ok(map k | k in order :: m[k])
    decreases |order|
  {
    var lines := YamlLines(m, order);
    if order != [] {
      var n := |order| - 1;
      assert lines[..n] == YamlLines(m, order[..n]);
      YamlLinesRead(m, order[..n]);
      var before := map k | k in order[..n] :: m[k];
      YamlLineReadsBack(before, order[n], m[order[n]]);
      RestrictSnoc(m, order);
    }
  }

  lemma RestrictSnoc(m: map<string, string>, order: seq<string>)
    requires order != [] && forall i :: 0 <= i < |order| ==> order[i] in m
    ensures var n := |order| - 1;
      (map k | k in order[..n] :: m[k])[order[n] := m[order[n]]] == map k | k in order :: m[k]
  {
    var n := |order| - 1;
    var a := (map k | k in order[..n] :: m[k])[order[n] := m[order[n]]];
    var b := map k | k in order :: m[k];
    assert order == order[..n] + [order[n]];
    assert forall k :: k in a <==> k in b;
    assert forall k :: k in a ==> a[k] == b[k];
  }

  /** Each written entry is one line of the file. */
  lemma YamlLinesAreLines(m: map<string, string>, order: seq<string>)
    requires forall i :: 0 <= i < |order| ==> order[i] in m
    requires forall k :: k in m ==> CleanKey(k) && CleanYamlValue(m[k])
    ensures forall i :: 0 <= i < |YamlLines(m, order)| ==> IsLine(YamlLines(m, order)[i])
  {
    var lines := YamlLines(m, order);
    forall i | 0 <= i < |lines|
      ensures IsLine(lines[i])
    {
      YamlLineShape(order[i], m[order[i]]);
    }
  }

  /** Restricting a dictionary to the keys of its enumeration gives the dictionary. */
  lemma RestrictEnumerated(m: map<string, string>, order: seq<string>)
    requires Enumerates(order, m)
    ensures (map k | k in order :: m[k]) == m
  {
  }

  /** Writing a dictionary as `k: v` lines and parsing the file again gives the
      same dictionary, when keys and values hold nothing the parser alters. */
  lemma YamlRoundTrip(m: map<string, string>, order: seq<string>)
    requires Enumerates(order, m)
    requires forall k :: k in m ==> CleanKey(k) && CleanYamlValue(m[k])
    ensures YamlFold(SplitLines(Concat(YamlLines(m, order)))) == Ok(m)
  {
    YamlLinesAreLines(m, order);
    SplitLinesConcat(YamlLines(m, order));
    YamlLinesRead(m, order);
    RestrictEnumerated(m, order);
  }

  // ---------------------------------------------------------------------------
  // jvm.options

  /** The two heap settings `jvm.options` carries. */
  datatype Heap = Initial | Maximum

  function Flag(h: Heap): string {
    match h
    case Initial => "-Xms"
    case Maximum => "-Xmx"
  }

  function HeapKey(h: Heap): string {
    match h
    case Initial => "initial_memory"
    case Maximum => "maximum_memory"
  }

  /** The line sets heap bound `h`: a `-Xms` test comes first, so a line holding
      both flags sets the initial size only. */
  predicate Sets(h: Heap, line: string) {
    match h
    case Initial => !IsComment(line) && Contains(line, "-Xms")
    case Maximum => !IsComment(line) && !Contains(line, "-Xms") && Contains(line, "-Xmx")
  }

  /** `line.replace(flag, '').strip()`. */
  function HeapValue(h: Heap, line: string): string {
    Strip(RemoveAll(line, Flag(h)))
  }

  /** One iteration of the `_parse_jvm_options` loop. */
  function JvmStep(options: map<string, string>, line: string): map<string, string> {
    if Sets(Initial, line) then options[HeapKey(Initial) := HeapValue(Initial, line)]
    else if Sets(Maximum, line) then options[HeapKey(Maximum) := HeapValue(Maximum, line)]
    else options
  }

  function JvmFold(options: map<string, string>, lines: seq<string>): map<string, string>
    decreases |lines|
  {
    if lines == [] then options
    else JvmStep(JvmFold(options, lines[..|lines| - 1]), lines[|lines| - 1])
  }

  /** `_parse_jvm_options`: a missing `jvm.options` gives an empty dictionary. */
  function JvmOptions(fs: FileSystem, dir: string): map<string, string> {
    if JvmPath(dir) !in fs then map[] else JvmFold(map[], SplitLines(fs[JvmPath(dir)]))
  }

  /** The `_parse_jvm_options` loop. */
  method ParseJvmOptions(fs: FileSystem, dir: string) returns (options: map<string, string>)
    ensures JvmPath(dir) !in fs ==> options == map[]
    ensures options == JvmOptions(fs, dir)
  {
    options := map[];
    if JvmPath(dir) !in fs {
      return;
    }
    var lines := SplitLines(fs[JvmPath(dir)]);
    var i := 0;
    while i < |lines|
      invariant 0 <= i <= |lines|
      invariant options == JvmFold(map[], lines[..i])
    {
      var line := lines[i];
      JvmFoldSnoc(map[], lines, i);
      if !IsComment(line) && Contains(line, Flag(Initial)) {
        options := options[HeapKey(Initial) := HeapValue(Initial, line)];
      } else if !IsComment(line) && Contains(line, Flag(Maximum)) {
        options := options[HeapKey(Maximum) := HeapValue(Maximum, line)];
      }
      i := i + 1;
    }
    assert lines[..i] == lines;
  }

  lemma JvmFoldSnoc(options: map<string, string>, lines: seq<string>, i: nat)
    requires i < |lines|
    ensures JvmFold(options, lines[..i + 1]) == JvmStep(JvmFold(options, lines[..i]), lines[i])
  {
    assert lines[..i + 1][..i] == lines[..i];
  }

  /** The JVM parser only ever stores the two heap keys. */
  lemma {:induction false} JvmKeys(options: map<string, string>, lines: seq<string>)
    ensures JvmFold(options, lines).Keys <= options.Keys + {HeapKey(Initial), HeapKey(Maximum)}
    decreases |lines|
  {
    if lines != [] {
      JvmKeys(options, lines[..|lines| - 1]);
    }
  }

  /** A line that sets a heap bound stores its value under that bound's key. */
  lemma JvmStepSets(h: Heap, options: map<string, string>, line: string)
    requires Sets(h, line)
    ensures HeapKey(h) in JvmStep(options, line) && JvmStep(options, line)[HeapKey(h)] == HeapValue(h, line)
  {
    if h == Maximum {
      assert !Sets(Initial, line);
    }
  }

  /** A line that does not set a heap bound leaves that bound's entry alone. */
  lemma JvmStepKeeps(h: Heap, options: map<string, string>, line: string)
    requires !Sets(h, line)
    ensures HeapKey(h) in JvmStep(options, line) <==> HeapKey(h) in options
    ensures HeapKey(h) in options ==> JvmStep(options, line)[HeapKey(h)] == options[HeapKey(h)]
  {
    assert HeapKey(Initial) != HeapKey(Maximum);
  }

  /** The last line that sets a heap bound decides it (later lines override earlier ones). */
  lemma {:induction false} JvmLastWins(h: Heap, options: map<string, string>, lines: seq<string>, i: nat)
    requires i < |lines| && Sets(h, lines[i])
    requires forall j :: i < j < |lines| ==> !Sets(h, lines[j])
    ensures HeapKey(h) in JvmFold(options, lines)
    ensures JvmFold(options, lines)[HeapKey(h)] == HeapValue(h, lines[i])
    decreases |lines|
  {
    var n := |lines| - 1;
    var init := lines[..n];
    JvmFoldSnoc(options, lines, n);
    assert lines[..n + 1] == lines;
    if i < n {
      assert forall j :: i < j < n ==> init[j] == lines[j];
      JvmLastWins(h, options, init, i);
      JvmStepKeeps(h, JvmFold(options, init), lines[n]);
    } else {
      JvmStepSets(h, JvmFold(options, init), lines[n]);
    }
  }

  /** A heap bound that no line sets keeps the entry it had. */
  lemma {:induction false} JvmUnset(h: Heap, options: map<string, string>, lines: seq<string>)
    requires forall j :: 0 <= j < |lines| ==> !Sets(h, lines[j])
    ensures HeapKey(h) in JvmFold(options, lines) <==> HeapKey(h) in options
    ensures HeapKey(h) in options ==> JvmFold(options, lines)[HeapKey(h)] == options[HeapKey(h)]
    decreases |lines|
  {
    if lines != [] {
      var n := |lines| - 1;
      var init := lines[..n];
      assert forall j :: 0 <= j < n ==> init[j] == lines[j];
      JvmUnset(h, options, init);
      JvmFoldSnoc(options, lines, n);
      assert lines[..n + 1] == lines;
      JvmStepKeeps(h, JvmFold(options, init), lines[n]);
    }
  }

  lemma {:induction false} JvmFoldAppend(options: map<string, string>, a: seq<string>, b: seq<string>)
    ensures JvmFold(options, a + b) == JvmFold(JvmFold(options, a), b)
    decreases |b|
  {
    if b == [] {
      assert a + b == a;
    } else {
      var n := |b| - 1;
      assert (a + b)[..|a + b| - 1] == a + b[..n];
      JvmFoldAppend(options, a, b[..n]);
    }
  }

  // ---------------------------------------------------------------------------
  // Rewriting jvm.options

  /** `_overwrite_jvm_options`' text for one input line, before the `'\n'` every
      line gets; a flag line whose setting is not in the dictionary raises a KeyError. */
  function JvmSegment(options: map<string, string>, line: string): Result<string> {
    if Sets(Initial, line) then
      if HeapKey(Initial) in options then Ok(Flag(Initial) + options[HeapKey(Initial)]) else Err(KeyError)
    else if Sets(Maximum, line) then
      if HeapKey(Maximum) in options then Ok(Flag(Maximum) + options[HeapKey(Maximum)]) else Err(KeyError)
    else Ok(line)
  }

  /** The whole new `jvm.options` text: one segment and one `'\n'` per input line. */
  function RewriteJvm(options: map<string, string>, lines: seq<string>): (r: Result<string>)
    ensures r.Err? <==> exists i, h :: 0 <= i < |lines| && Sets(h, lines[i]) && HeapKey(h) !in options
    ensures r.Err? ==> r.error == KeyError
    decreases |lines|
  {
    if lines == [] then Ok([])
    else
      var n := |lines| - 1;
      var previous := RewriteJvm(options, lines[..n]);
      assert forall i :: 0 <= i < n ==> lines[..n][i] == lines[i];
      match previous
      case Err(e) => Err(e)
      case Ok(out) =>
        match JvmSegment(options, lines[n])
        case Err(e) => Err(e)
        case Ok(segment) => Ok(out + segment + "\n")
  }

  /** Rewriting one more line. */
  lemma RewriteJvmSnoc(options: map<string, string>, lines: seq<string>, i: nat)
    requires i < |lines|
    ensures RewriteJvm(options, lines[..i + 1])
      == match RewriteJvm(options, lines[..i])
         case Err(e) => Err(e)
         case Ok(out) =>
           match JvmSegment(options, lines[i])
           case Err(e) => Err(e)
           case Ok(segment) => Ok(out + segment + "\n")
  {
    assert lines[..i + 1][..i] == lines[..i] && lines[..i + 1][i] == lines[i];
  }

  /** A flag line whose setting is missing makes the whole rewrite raise a KeyError. */
  lemma RewriteJvmMissing(options: map<string, string>, lines: seq<string>, i: nat, h: Heap)
    requires i < |lines| && Sets(h, lines[i]) && HeapKey(h) !in options
    ensures RewriteJvm(options, lines) == Err(KeyError)
  {
  }

  /** The loop of `_overwrite_jvm_options`, building the new text line by line. */
  method RewriteLines(options: map<string, string>, lines: seq<string>) returns (r: Result<string>)
    ensures r == RewriteJvm(options, lines)
  {
    var output := "";
    var i := 0;
    while i < |lines|
      invariant 0 <= i <= |lines|
      invariant RewriteJvm(options, lines[..i]) == Ok(output)
    {
      var line := lines[i];
      RewriteJvmSnoc(options, lines, i);
      if !IsComment(line) && Contains(line, Flag(Initial)) {
        if HeapKey(Initial) !in options {
          RewriteJvmMissing(options, lines, i, Initial);
          return Err(KeyError);
        }
        output := output + (Flag(Initial) + options[HeapKey(Initial)]);
      } else if !IsComment(line) && Contains(line, Flag(Maximum)) {
        if HeapKey(Maximum) !in options {
          RewriteJvmMissing(options, lines, i, Maximum);
          return Err(KeyError);
        }
        output := output + (Flag(Maximum) + options[HeapKey(Maximum)]);
      } else {
        output := output + line;
      }
      output := output + "\n";
      i := i + 1;
    }
    assert lines[..i] == lines;
    return Ok(output);
  }

  /** `jvm.options` after `_overwrite_jvm_options`: opening a missing file raises an IOError. */
  function OverwrittenJvm(options: map<string, string>, fs: FileSystem, dir: string): Result<FileSystem> {
    if JvmPath(dir) !in fs then Err(IOError)
    else match RewriteJvm(options, SplitLines(fs[JvmPath(dir)]))
      case Err(e) => Err(e)
      case Ok(out) => Ok(fs[JvmPath(dir) := out])
  }

  /** A heap size that reads back as itself after `-Xms`/`-Xmx`: trimmed, on one
      line, and free of the `X` both flags contain. */
  predicate CleanHeap(v: string) {
    Trimmed(v) && '\n' !in v && 'X' !in v
  }

  /** The rewritten text as whole lines: a flag line becomes one line, a copied line
      ending in a newline becomes itself and an empty line, and a last line without
      one becomes that line completed. */
  function ExpandLine(options: map<string, string>, line: string): seq<string>
    requires JvmSegment(options, line).Ok?
  {
    if Sets(Initial, line) || Sets(Maximum, line) then [JvmSegment(options, line).value + "\n"]
    else if line != [] && line[|line| - 1] == '\n' then [line, "\n"]
    else [line + "\n"]
  }

  function Expanded(options: map<string, string>, lines: seq<string>): seq<string>
    requires RewriteJvm(options, lines).Ok?
    decreases |lines|
  {
    if lines == [] then []
    else
      var n := |lines| - 1;
      assert forall i :: 0 <= i < n ==> lines[..n][i] == lines[i];
      Expanded(options, lines[..n]) + ExpandLine(options, lines[n])
  }

  /** The rewrite and its expansion, one input line at a time. */
  lemma RewriteJvmLast(options: map<string, string>, lines: seq<string>)
    requires lines != [] && RewriteJvm(options, lines).Ok?
    ensures var n := |lines| - 1;
      RewriteJvm(options, lines[..n]).Ok? && JvmSegment(options, lines[n]).Ok?
      && RewriteJvm(options, lines).value
         == RewriteJvm(options, lines[..n]).value + JvmSegment(options, lines[n]).value + "\n"
      && Expanded(options, lines) == Expanded(options, lines[..n]) + ExpandLine(options, lines[n])
  {
  }

  lemma {:induction false} RewriteIsExpanded(options: map<string, string>, lines: seq<string>)
    requires RewriteJvm(options, lines).Ok?
    ensures RewriteJvm(options, lines).value == Concat(Expanded(options, lines))
    decreases |lines|
  {
    if lines != [] {
      var n := |lines| - 1;
      RewriteJvmLast(options, lines);
      RewriteIsExpanded(options, lines[..n]);
      ConcatAppend(Expanded(options, lines[..n]), ExpandLine(options, lines[n]));
      ConcatExpandLine(options, lines[n]);
    }
  }

  lemma ConcatExpandLine(options: map<string, string>, line: string)
    requires JvmSegment(options, line).Ok?
    ensures Concat(ExpandLine(options, line)) == JvmSegment(options, line).value + "\n"
  {
    var last := ExpandLine(options, line);
    if Sets(Initial, line) || Sets(Maximum, line) || line == [] || line[|line| - 1] != '\n' {
      assert last[1..] == [];
      assert Concat(last) == last[0];
    } else {
      assert last == [line, "\n"];
      assert last[1..] == ["\n"] && last[1..][1..] == [];
      assert Concat(last[1..]) == "\n";
    }
  }

  /** The lines written for one input line are whole lines. */
  lemma ExpandLineAreLines(options: map<string, string>, line: string)
    requires IsReadLines([line]) && JvmSegment(options, line).Ok?
    requires forall h :: HeapKey(h) in options ==> CleanHeap(options[HeapKey(h)])
    ensures forall i :: 0 <= i < |ExpandLine(options, line)| ==> IsLine(ExpandLine(options, line)[i])
  {
    assert [line][0] == line;
    var last := ExpandLine(options, line);
    if Sets(Initial, line) || Sets(Maximum, line) {
      var h := if Sets(Initial, line) then Initial else Maximum;
      assert last[0] == Flag(h) + options[HeapKey(h)] + "\n";
      assert last[0][..|last[0]| - 1] == Flag(h) + options[HeapKey(h)];
    } else if line[|line| - 1] != '\n' {
      assert '\n' !in line by {
        assert line == line[..|line| - 1] + [line[|line| - 1]];
      }
      assert last[0][..|last[0]| - 1] == line;
    }
  }

  lemma {:induction false} ExpandedAreLines(options: map<string, string>, lines: seq<string>)
    requires IsReadLines(lines) && RewriteJvm(options, lines).Ok?
    requires forall h :: HeapKey(h) in options ==> CleanHeap(options[HeapKey(h)])
    ensures forall i :: 0 <= i < |Expanded(options, lines)| ==> IsLine(Expanded(options, lines)[i])
    decreases |lines|
  {
    if lines != [] {
      var n := |lines| - 1;
      RewriteJvmLast(options, lines);
      ReadLinesLast(lines);
      ExpandedAreLines(options, lines[..n]);
      ExpandLineAreLines(options, lines[n]);
      var a, b := Expanded(options, lines[..n]), ExpandLine(options, lines[n]);
      assert forall i :: |a| <= i < |a + b| ==> (a + b)[i] == b[i - |a|];
    }
  }

  /** A flag line as the rewriter writes it is read back as that flag's setting. */
  lemma FlagLineReadsBack(h: Heap, v: string)
    requires CleanHeap(v)
    ensures Sets(h, Flag(h) + v + "\n")
    ensures h == Maximum ==> !Sets(Initial, Flag(h) + v + "\n")
    ensures HeapValue(h, Flag(h) + v + "\n") == v
  {
    FlagLineValue(h, v);
    FlagLineSets(h, v);
  }

  lemma FlagLineValue(h: Heap, v: string)
    requires CleanHeap(v)
    ensures HeapValue(h, Flag(h) + v + "\n") == v
  {
    var t := v + "\n";
    var s := Flag(h) + t;
    assert Flag(h) + v + "\n" == s;
    assert 'X' !in t;
    ContainsNeedsChar(t, Flag(h), 'X');
    assert s[|Flag(h)|..] == t;
    RemoveAllNotContained(t, Flag(h));
    assert RemoveAll(s, Flag(h)) == t;
    StripTrailingSpace(v, "\n");
  }

  lemma FlagLineSets(h: Heap, v: string)
    requires CleanHeap(v)
    ensures Sets(h, Flag(h) + v + "\n")
    ensures h == Maximum ==> !Sets(Initial, Flag(h) + v + "\n")
  {
    var t := v + "\n";
    var s := Flag(h) + t;
    assert Flag(h) + v + "\n" == s;
    assert !IsComment(s) by {
      assert s[0] == '-';
    }
    assert Flag(h) <= s;
    if h == Maximum {
      var p := "-Xms";
      assert 'X' !in t;
      ContainsNeedsChar(t, p, 'X');
      assert s[4..] == t && s[3..][1..] == s[4..] && s[2..][1..] == s[3..] && s[1..][1..] == s[2..];
      assert !Contains(s[3..], p);
      assert !Contains(s[2..], p);
      assert !Contains(s[1..], p);
      assert !(p <= s) by {
        assert s[3] == 'x';
      }
    }
  }

  /** Completing a last line with a newline does not change what the parser sees in it. */
  lemma CompletedLineSets(h: Heap, line: string)
    requires line != [] && '\n' !in line
    ensures Sets(h, line + "\n") <==> Sets(h, line)
  {
    var s := line + "\n";
    assert IsComment(s) <==> IsComment(line) by {
      assert s[0] == line[0];
    }
    forall p | p == "-Xms" || p == "-Xmx"
      ensures Contains(s, p) <==> Contains(line, p)
    {
      if Contains(s, p) {
        ContainsDropLast(line, '\n', p);
      }
      if Contains(line, p) {
        ContainsAppend(line, "\n", p);
      }
    }
  }

  lemma JvmFoldNone(options: map<string, string>, extra: seq<string>)
    requires forall i, h :: 0 <= i < |extra| ==> !Sets(h, extra[i])
    ensures JvmFold(options, extra) == options
    decreases |extra|
  {
    if extra != [] {
      var n := |extra| - 1;
      assert forall i :: 0 <= i < n ==> extra[..n][i] == extra[i];
      JvmFoldNone(options, extra[..n]);
      assert !Sets(Initial, extra[n]) && !Sets(Maximum, extra[n]);
    }
  }

  lemma JvmFoldOne(start: map<string, string>, line: string)
    ensures JvmFold(start, [line]) == JvmStep(start, line)
  {
    assert [line][..0] == [];
  }

  /** The line written for a flag line is read back as the stored setting. */
  lemma ExpandFlagLineReadsBack(options: map<string, string>, start: map<string, string>, line: string, h: Heap)
    requires (Sets(Initial, line) || Sets(Maximum, line)) && JvmSegment(options, line).Ok?
    requires forall g :: HeapKey(g) in options ==> CleanHeap(options[HeapKey(g)])
    ensures var r := JvmFold(start, ExpandLine(options, line));
      (Sets(h, line) ==> HeapKey(h) in r && r[HeapKey(h)] == options[HeapKey(h)])
      && (!Sets(h, line) ==> (HeapKey(h) in r <==> HeapKey(h) in start)
                             && (HeapKey(h) in start ==> r[HeapKey(h)] == start[HeapKey(h)]))
  {
    var g := if Sets(Initial, line) then Initial else Maximum;
    var written := Flag(g) + options[HeapKey(g)] + "\n";
    assert ExpandLine(options, line) == [written];
    JvmFoldOne(start, written);
    FlagLineReadsBack(g, options[HeapKey(g)]);
    if h == g {
      JvmStepSets(h, start, written);
    } else {
      assert !Sets(h, written) && !Sets(h, line);
      JvmStepKeeps(h, start, written);
    }
  }

  /** The lines written for a line that sets nothing set nothing either. */
  lemma ExpandPlainLineReadsBack(options: map<string, string>, start: map<string, string>, line: string)
    requires IsReadLines([line]) && !Sets(Initial, line) && !Sets(Maximum, line)
    ensures JvmSegment(options, line).Ok? && JvmFold(start, ExpandLine(options, line)) == start
  {
    assert [line][0] == line;
    var expanded := ExpandLine(options, line);
    assert '\n' !in "\n"[..0];
    ContainsNeedsChar("\n", "-Xms", 'X');
    ContainsNeedsChar("\n", "-Xmx", 'X');
    if line[|line| - 1] != '\n' {
      assert '\n' !in line by {
        assert line == line[..|line| - 1] + [line[|line| - 1]];
      }
      CompletedLineSets(Initial, line);
      CompletedLineSets(Maximum, line);
    }
    JvmFoldNone(start, expanded);
  }

  /** Reading back the lines written for one input line. */
  lemma ExpandLineReadsBack(options: map<string, string>, start: map<string, string>, line: string, h: Heap)
    requires IsReadLines([line]) && JvmSegment(options, line).Ok?
    requires forall g :: HeapKey(g) in options ==> CleanHeap(options[HeapKey(g)])
    ensures var r := JvmFold(start, ExpandLine(options, line));
      (Sets(h, line) ==> HeapKey(h) in r && r[HeapKey(h)] == options[HeapKey(h)])
      && (!Sets(h, line) ==> (HeapKey(h) in r <==> HeapKey(h) in start)
                             && (HeapKey(h) in start ==> r[HeapKey(h)] == start[HeapKey(h)]))
  {
    if Sets(Initial, line) || Sets(Maximum, line) {
      ExpandFlagLineReadsBack(options, start, line, h);
    } else {
      ExpandPlainLineReadsBack(options, start, line);
    }
  }

  /** Reading back the lines written for all but the last input line, then those of the last. */
  lemma ExpandedSnoc(options: map<string, string>, start: map<string, string>, lines: seq<string>)
    requires lines != [] && IsReadLines(lines) && RewriteJvm(options, lines).Ok?
    ensures var n := |lines| - 1;
      IsReadLines(lines[..n]) && RewriteJvm(options, lines[..n]).Ok?
      && IsReadLines([lines[n]]) && JvmSegment(options, lines[n]).Ok?
      && JvmFold(start, Expanded(options, lines))
         == JvmFold(JvmFold(start, Expanded(options, lines[..n])), ExpandLine(options, lines[n]))
  {
    var n := |lines| - 1;
    RewriteJvmLast(options, lines);
    ReadLinesLast(lines);
    JvmFoldAppend(start, Expanded(options, lines[..n]), ExpandLine(options, lines[n]));
  }

  lemma {:induction false} ExpandedReadsBackSet(options: map<string, string>, start: map<string, string>, lines: seq<string>, h: Heap, i: nat)
    requires IsReadLines(lines) && RewriteJvm(options, lines).Ok?
    requires forall g :: HeapKey(g) in options ==> CleanHeap(options[HeapKey(g)])
    requires i < |lines| && Sets(h, lines[i])
    ensures var r := JvmFold(start, Expanded(options, lines));
      HeapKey(h) in r && r[HeapKey(h)] == options[HeapKey(h)]
    decreases |lines|
  {
    var n := |lines| - 1;
    ExpandedSnoc(options, start, lines);
    var middle := JvmFold(start, Expanded(options, lines[..n]));
    ExpandLineReadsBack(options, middle, lines[n], h);
    if !Sets(h, lines[n]) {
      assert lines[..n][i] == lines[i];
      ExpandedReadsBackSet(options, start, lines[..n], h, i);
    }
  }

  lemma NoneSetsPrefix(lines: seq<string>, n: nat, h: Heap)
    requires n < |lines| && forall i :: 0 <= i < |lines| ==> !Sets(h, lines[i])
    ensures !Sets(h, lines[n]) && forall i :: 0 <= i < n ==> !Sets(h, lines[..n][i])
  {
    assert forall k :: 0 <= k < n ==> lines[..n][k] == lines[k];
  }

  lemma {:induction false} ExpandedReadsBackUnset(options: map<string, string>, start: map<string, string>, lines: seq<string>, h: Heap)
    requires IsReadLines(lines) && RewriteJvm(options, lines).Ok?
    requires forall g :: HeapKey(g) in options ==> CleanHeap(options[HeapKey(g)])
    requires forall i :: 0 <= i < |lines| ==> !Sets(h, lines[i])
    ensures var r := JvmFold(start, Expanded(options, lines));
      (HeapKey(h) in r <==> HeapKey(h) in start) && (HeapKey(h) in start ==> r[HeapKey(h)] == start[HeapKey(h)])
    decreases |lines|
  {
    if lines != [] {
      var n := |lines| - 1;
      ExpandedSnoc(options, start, lines);
      NoneSetsPrefix(lines, n, h);
      ExpandedReadsBackUnset(options, start, lines[..n], h);
      var middle := JvmFold(start, Expanded(options, lines[..n]));
      ExpandLineReadsBack(options, middle, lines[n], h);
    }
  }

  /** After the rewrite, reading `jvm.options` again reports the stored heap size
      for every flag the file had, and nothing for a flag it lacked. */
  lemma JvmRewriteReadsBack(options: map<string, string>, lines: seq<string>, h: Heap)
    requires IsReadLines(lines) && RewriteJvm(options, lines).Ok?
    requires forall g :: HeapKey(g) in options ==> CleanHeap(options[HeapKey(g)])
    ensures var back := JvmFold(map[], SplitLines(RewriteJvm(options, lines).value));
      (HeapKey(h) in back <==> exists i :: 0 <= i < |lines| && Sets(h, lines[i]))
      && (HeapKey(h) in back ==> back[HeapKey(h)] == options[HeapKey(h)])
  {
    RewriteIsExpanded(options, lines);
    ExpandedAreLines(options, lines);
    SplitLinesConcat(Expanded(options, lines));
    if i :| 0 <= i < |lines| && Sets(h, lines[i]) {
      ExpandedReadsBackSet(options, map[], lines, h, i);
    } else {
      ExpandedReadsBackUnset(options, map[], lines, h);
    }
  }

  // ---------------------------------------------------------------------------
  // Heap sizes

  /** Python's `int(x)` on a float: the integer part, rounding toward zero. */
  function TruncateToInt(x: real): (n: int)
    ensures x >= 0.0 ==> n as real <= x < n as real + 1.0
    ensures x < 0.0 ==> n as real - 1.0 < x <= n as real
  {
    if x >= 0.0 then x.Floor else -((-x).Floor)
  }

  /** `str(int(gigs)) + 'g'`, the form both heap setters store. */
  function HeapSize(gigs: real): string {
    IntToString(TruncateToInt(gigs)) + "g"
  }

  /** A stored heap size is the whole number of gigabytes followed by `g`, and it
      survives the rewrite and re-read of `jvm.options`. */
  lemma HeapSizeReadsBack(gigs: real)
    ensures var s := HeapSize(gigs);
      s[|s| - 1] == 'g' && ParseInt(s[..|s| - 1]) == Some(TruncateToInt(gigs)) && CleanHeap(s)
  {
    var n := TruncateToInt(gigs);
    var s := HeapSize(gigs);
    assert s[..|s| - 1] == IntToString(n);
    IntToStringRoundTrip(n, []);
    assert IntToString(n) + [] == IntToString(n);
    assert forall i :: 0 <= i < |s| ==> s[i] != 'X' && s[i] != '\n';
  }

  // ---------------------------------------------------------------------------
  // /etc/environment

  /** The `elif` chain of `_parse_environment_file`. */
  const EnvironmentChain: seq<EnvironmentFile.Arm> := [
    EnvironmentFile.Arm("JAVA_HOME", "java_home"),
    EnvironmentFile.Arm("LS_PATH_CONF", "ls_path_conf"),
    EnvironmentFile.Arm("LS_HOME", "ls_home")]

  /** `m` with `k` bound to the value `o` holds, if it holds one. */
  function Put(m: map<string, string>, k: string, o: Option<string>): (r: map<string, string>)
    ensures o.None? ==> r == m
    ensures o.Some? ==> r == m[k := o.value]
  {
    if o.Some? then m[k := o.value] else m
  }

  /** The three environment fields as the attributes the chain assigns. */
  function EnvironmentState(javaHome: Option<string>, lsPathConf: Option<string>, lsHome: Option<string>): map<string, string> {
    Put(Put(Put(map[], "java_home", javaHome), "ls_path_conf", lsPathConf), "ls_home", lsHome)
  }

  /** `KEY=value\n` as the installer's `echo` writes it. */
  function Assignment(key: string, v: string): string {
    key + "=" + v + "\n"
  }

  lemma AssignmentIsLine(key: string, v: string)
    requires '\n' !in key && '\n' !in v
    ensures IsLine(Assignment(key, v))
  {
    var l := Assignment(key, v);
    assert l[..|l| - 1] == key + "=" + v;
  }

  /** Each arm's own assignment line is sent to that arm: no earlier prefix matches it. */
  lemma MatchesArm(j: nat, v: string)
    requires j < |EnvironmentChain|
    ensures EnvironmentFile.FirstMatch(EnvironmentChain, Assignment(EnvironmentChain[j].prefix, v)) == Some(j)
  {
    var key := EnvironmentChain[j].prefix;
    var l := Assignment(key, v);
    assert l == key + ("=" + v + "\n");
    assert key <= l;
    if j == 1 {
      assert l[0] == 'L';
    } else if j == 2 {
      assert l[0] == 'L' && l[3] == 'H';
    }
  }

  lemma PrefixHasNoEquals(j: nat)
    requires j < |EnvironmentChain|
    ensures '=' !in EnvironmentChain[j].prefix
  {
    var key := EnvironmentChain[j].prefix;
    assert key == "JAVA_HOME" || key == "LS_PATH_CONF" || key == "LS_HOME";
  }

  /** The assignment line of arm `j`, with a plain value, assigns that value. */
  lemma AssignmentStep(before: map<string, string>, j: nat, v: string)
    requires j < |EnvironmentChain|
    requires '=' !in v && Trimmed(v)
    ensures EnvironmentFile.Step(EnvironmentChain, before, Assignment(EnvironmentChain[j].prefix, v))
      == EnvironmentFile.ParseOutcome(before[EnvironmentChain[j].attribute := v], None)
  {
    var key := EnvironmentChain[j].prefix;
    MatchesArm(j, v);
    PrefixHasNoEquals(j);
    EnvironmentFile.AssignmentReadsBack(key, v, "\n");
    EnvironmentFile.StepMatched(EnvironmentChain, before, Assignment(key, v), j, v);
  }

  /** Three appended assignments read as three lines. */
  lemma AssignmentLines(a: string, b: string, c: string)
    requires '\n' !in a && '\n' !in b && '\n' !in c
    ensures SplitLines(Assignment("JAVA_HOME", a) + Assignment("LS_PATH_CONF", b) + Assignment("LS_HOME", c))
      == [Assignment("JAVA_HOME", a), Assignment("LS_PATH_CONF", b), Assignment("LS_HOME", c)]
  {
    var l0, l1, l2 := Assignment("JAVA_HOME", a), Assignment("LS_PATH_CONF", b), Assignment("LS_HOME", c);
    AssignmentIsLine("JAVA_HOME", a);
    AssignmentIsLine("LS_PATH_CONF", b);
    AssignmentIsLine("LS_HOME", c);
    ConcatThree(l0, l1, l2);
    SplitLinesConcat([l0, l1, l2]);
  }

  /** The lines the installer's `echo KEY=value >> /etc/environment` calls leave
      are read back as those three values, whatever the fields held before. */
  lemma EnvironmentReadsBack(before: map<string, string>, javaHome: string, lsPathConf: string, lsHome: string)
    requires forall v :: v in [javaHome, lsPathConf, lsHome] ==> '=' !in v && '\n' !in v && Trimmed(v)
    ensures var lines := SplitLines(Assignment("JAVA_HOME", javaHome) + Assignment("LS_PATH_CONF", lsPathConf)
                                    + Assignment("LS_HOME", lsHome));
      EnvironmentFile.ParseLines(EnvironmentChain, before, lines)
      == EnvironmentFile.ParseOutcome(before["java_home" := javaHome]["ls_path_conf" := lsPathConf]["ls_home" := lsHome], None)
  {
    assert javaHome in [javaHome, lsPathConf, lsHome] && lsPathConf in [javaHome, lsPathConf, lsHome] && lsHome in [javaHome, lsPathConf, lsHome];
    AssignmentLines(javaHome, lsPathConf, lsHome);
    var s0 := before["java_home" := javaHome];
    var s1 := s0["ls_path_conf" := lsPathConf];
    AssignmentStep(before, 0, javaHome);
    AssignmentStep(s0, 1, lsPathConf);
    AssignmentStep(s1, 2, lsHome);
    EnvironmentFile.ParseThree(EnvironmentChain, before, Assignment("JAVA_HOME", javaHome),
      Assignment("LS_PATH_CONF", lsPathConf), Assignment("LS_HOME", lsHome));
  }

  // ---------------------------------------------------------------------------
  // write_configs

  function BackupDirectory(dir: string): string { PathJoin(dir, "config_backups/") }

  function YamlBackupPath(dir: string, timestamp: nat): string {
    PathJoin(BackupDirectory(dir), "logstash.yml.backup." + NatToString(timestamp))
  }

  function JvmBackupPath(dir: string, timestamp: nat): string {
    PathJoin(BackupDirectory(dir), "java.options.backup." + NatToString(timestamp))
  }

  /** What a file opened in append mode starts from. */
  function Existing(fs: FileSystem, path: string): string {
    if path in fs then fs[path] else []
  }

  /** The files after `write_configs`, and the exception that stopped it, if any. */
  datatype WriteOutcome = WriteOutcome(files: FileSystem, error: Option<Exception>)

  /** `shutil.move(source, target)`. */
  function Moved(fs: FileSystem, source: string, target: string): FileSystem
    requires source in fs
  {
    (fs - {source})[target := fs[source]]
  }

  /** `shutil.copy(source, target)`. */
  function Copied(fs: FileSystem, source: string, target: string): FileSystem
    requires source in fs
  {
    fs[target := fs[source]]
  }

  /** `path` opened in append mode and given `content`. */
  function Appended(fs: FileSystem, path: string, content: string): FileSystem {
    fs[path := Existing(fs, path) + content]
  }

  /** The files after the two backups and the append, before `jvm.options` is rewritten. */
  function BackedUp(fs: FileSystem, dir: string, timestamp: nat, content: string): FileSystem
    requires YamlPath(dir) in fs && JvmPath(dir) in Moved(fs, YamlPath(dir), YamlBackupPath(dir, timestamp))
  {
    var moved := Moved(fs, YamlPath(dir), YamlBackupPath(dir, timestamp));
    Appended(Copied(moved, JvmPath(dir), JvmBackupPath(dir, timestamp)), YamlPath(dir), content)
  }

  /** `write_configs` writing `content` to the new `logstash.yml`: move `logstash.yml`
      to its backup (an IOError if it is missing), copy `jvm.options` to its backup
      (likewise), append `content` to a new `logstash.yml`, then rewrite `jvm.options`. */
  function ConfigsWritten(fs: FileSystem, dir: string, content: string, jvmOptions: map<string, string>,
                          timestamp: nat): WriteOutcome
  {
    if YamlPath(dir) !in fs then WriteOutcome(fs, Some(IOError))
    else
      var moved := Moved(fs, YamlPath(dir), YamlBackupPath(dir, timestamp));
      if JvmPath(dir) !in moved then WriteOutcome(moved, Some(IOError))
      else
        var written := BackedUp(fs, dir, timestamp, content);
        match OverwrittenJvm(jvmOptions, written, dir)
        case Err(e) => WriteOutcome(written, Some(e))
        case Ok(rewritten) => WriteOutcome(rewritten, None)
  }

  /** Moving `yml` away, copying `jvm` and appending to a fresh `yml`, for four
      different paths. */
  lemma WriteStepsAt(fs: FileSystem, yml: string, jvm: string, ymlBackup: string, jvmBackup: string, content: string)
    requires yml in fs && jvm in fs
    requires yml != jvm && yml != ymlBackup && yml != jvmBackup && jvm != ymlBackup && jvm != jvmBackup
      && ymlBackup != jvmBackup
    ensures jvm in Moved(fs, yml, ymlBackup)
    ensures var written := Appended(Copied(Moved(fs, yml, ymlBackup), jvm, jvmBackup), yml, content);
      jvm in written && written[jvm] == fs[jvm] && written[yml] == content
      && ymlBackup in written && written[ymlBackup] == fs[yml]
  {
    var moved := Moved(fs, yml, ymlBackup);
    assert yml !in moved;
    var copied := Copied(moved, jvm, jvmBackup);
    assert yml !in copied;
    assert Existing(copied, yml) + content == content;
  }

  /** The moves and copies leave `jvm.options` as it was, `logstash.yml` holding just
      the serialised entries, and the old `logstash.yml` in its backup. */
  lemma WriteSteps(fs: FileSystem, dir: string, timestamp: nat, content: string)
    requires YamlPath(dir) in fs && JvmPath(dir) in fs
    ensures JvmPath(dir) in Moved(fs, YamlPath(dir), YamlBackupPath(dir, timestamp))
    ensures var written := BackedUp(fs, dir, timestamp, content);
      JvmPath(dir) in written && written[JvmPath(dir)] == fs[JvmPath(dir)]
      && written[YamlPath(dir)] == content
      && YamlBackupPath(dir, timestamp) in written && written[YamlBackupPath(dir, timestamp)] == fs[YamlPath(dir)]
  {
    WritePathsDiffer(dir, timestamp);
    WriteStepsAt(fs, YamlPath(dir), JvmPath(dir), YamlBackupPath(dir, timestamp), JvmBackupPath(dir, timestamp), content);
  }

  /** The last character of a joined path is the last character of its final part. */
  lemma PathJoinLast(a: string, b: string)
    requires b != []
    ensures var r := PathJoin(a, b); r != [] && r[|r| - 1] == b[|b| - 1]
  {
  }

  /** A configuration file ends in a letter, a backup in a digit of its time stamp. */
  lemma LastCharacters(dir: string, timestamp: nat)
    ensures var y, j := YamlPath(dir), JvmPath(dir);
      var yb, jb := YamlBackupPath(dir, timestamp), JvmBackupPath(dir, timestamp);
      y != [] && j != [] && yb != [] && jb != []
      && y[|y| - 1] == 'l' && j[|j| - 1] == 's' && IsDigit(yb[|yb| - 1]) && IsDigit(jb[|jb| - 1])
  {
    var stamp := NatToString(timestamp);
    assert IsDigit(stamp[|stamp| - 1]);
    PathJoinLast(dir, "logstash.yml");
    PathJoinLast(dir, "jvm.options");
    PathJoinLast(BackupDirectory(dir), "logstash.yml.backup." + stamp);
    PathJoinLast(BackupDirectory(dir), "java.options.backup." + stamp);
  }

  /** The two backups have names of one length that differ in their first letter. */
  lemma BackupsDiffer(dir: string, timestamp: nat)
    ensures YamlBackupPath(dir, timestamp) != JvmBackupPath(dir, timestamp)
  {
    var stamp := NatToString(timestamp);
    var a, b := "logstash.yml.backup." + stamp, "java.options.backup." + stamp;
    var ya, jb := YamlBackupPath(dir, timestamp), JvmBackupPath(dir, timestamp);
    assert |ya| == |jb|;
    assert ya[|ya| - |a|..] == a && jb[|jb| - |b|..] == b;
    assert ya[|ya| - |a|] == a[0] && jb[|jb| - |b|] == b[0];
  }

  /** The configuration files and their backups are four different files. */
  lemma WritePathsDiffer(dir: string, timestamp: nat)
    ensures var y, j := YamlPath(dir), JvmPath(dir);
      var yb, jb := YamlBackupPath(dir, timestamp), JvmBackupPath(dir, timestamp);
      y != j && y != yb && y != jb && j != yb && j != jb && yb != jb
  {
    ConfigPathsDiffer(dir);
    LastCharacters(dir, timestamp);
    BackupsDiffer(dir, timestamp);
  }

  /** A successful `write_configs` leaves the appended `logstash.yml`, the backups, and
      `jvm.options` rewritten from its old lines. */
  lemma WrittenFiles(fs: FileSystem, dir: string, content: string, jvmOptions: map<string, string>,
                     timestamp: nat, out: FileSystem)
    requires ConfigsWritten(fs, dir, content, jvmOptions, timestamp) == WriteOutcome(out, None)
    ensures YamlPath(dir) in fs && JvmPath(dir) in fs
    ensures RewriteJvm(jvmOptions, SplitLines(fs[JvmPath(dir)])).Ok?
    ensures YamlPath(dir) in out && out[YamlPath(dir)] == content
    ensures JvmPath(dir) in out && out[JvmPath(dir)] == RewriteJvm(jvmOptions, SplitLines(fs[JvmPath(dir)])).value
    ensures YamlBackupPath(dir, timestamp) in out && out[YamlBackupPath(dir, timestamp)] == fs[YamlPath(dir)]
  {
    WriteSteps(fs, dir, timestamp, content);
    WritePathsDiffer(dir, timestamp);
  }

  /** A `logstash.yml` holding just the serialised entries parses back to them. */
  lemma WrittenYamlReadsBack(out: FileSystem, dir: string, options: map<string, string>, order: seq<string>)
    requires Enumerates(order, options)
    requires forall k :: k in options ==> CleanKey(k) && CleanYamlValue(options[k])
    requires YamlPath(dir) in out && out[YamlPath(dir)] == Concat(YamlLines(options, order))
    ensures YamlOptions(out, dir) == Ok(options)
  {
    YamlRoundTrip(options, order);
  }

  /** A `jvm.options` rewritten from `lines` parses back to the heap sizes whose flags
      those lines held. */
  lemma WrittenJvmReadsBack(out: FileSystem, dir: string, jvmOptions: map<string, string>, lines: seq<string>, h: Heap)
    requires IsReadLines(lines) && RewriteJvm(jvmOptions, lines).Ok?
    requires forall g :: HeapKey(g) in jvmOptions ==> CleanHeap(jvmOptions[HeapKey(g)])
    requires JvmPath(dir) in out && out[JvmPath(dir)] == RewriteJvm(jvmOptions, lines).value
    ensures var back := JvmOptions(out, dir);
      (HeapKey(h) in back <==> exists i :: 0 <= i < |lines| && Sets(h, lines[i]))
      && (HeapKey(h) in back ==> back[HeapKey(h)] == jvmOptions[HeapKey(h)])
  {
    JvmRewriteReadsBack(jvmOptions, lines, h);
  }

  /** After a successful `write_configs`, parsing `logstash.yml` again gives back the
      dictionary that was written, the old `logstash.yml` is in its backup, and
      `jvm.options` is the rewrite of its old lines, which `WrittenJvmReadsBack`
      reads back as the heap sizes whose flags those lines held. */
  lemma ConfigsReadBack(fs: FileSystem, dir: string, options: map<string, string>, jvmOptions: map<string, string>,
                        order: seq<string>, timestamp: nat, out: FileSystem)
    requires Enumerates(order, options)
    requires forall k :: k in options ==> CleanKey(k) && CleanYamlValue(options[k])
    requires ConfigsWritten(fs, dir, Concat(YamlLines(options, order)), jvmOptions, timestamp) == WriteOutcome(out, None)
    ensures YamlPath(dir) in fs && JvmPath(dir) in fs
    ensures YamlOptions(out, dir) == Ok(options)
    ensures YamlBackupPath(dir, timestamp) in out && out[YamlBackupPath(dir, timestamp)] == fs[YamlPath(dir)]
    ensures var lines := SplitLines(fs[JvmPath(dir)]);
      IsReadLines(lines) && RewriteJvm(jvmOptions, lines).Ok?
      && JvmPath(dir) in out && out[JvmPath(dir)] == RewriteJvm(jvmOptions, lines).value
  {
    WrittenFiles(fs, dir, Concat(YamlLines(options, order)), jvmOptions, timestamp, out);
    SplitLinesAreReadLines(fs[JvmPath(dir)]);
    WrittenYamlReadsBack(out, dir, options, order);
  }

  // ---------------------------------------------------------------------------
  // The configurator

  class LogstashConfigurator {
    var configurationDirectory: string
    var lsConfigOptions: map<string, string>
    var jvmConfigOptions: map<string, string>
    var javaHome: Option<string>
    var lsHome: Option<string>
    var lsPathConf: Option<string>

    /** The object `__init__` builds from the two parsed dictionaries, before it
        reads `/etc/environment`. */
    constructor (configurationDirectory: string, lsConfigOptions: map<string, string>, jvmConfigOptions: map<string, string>)
      ensures this.configurationDirectory == configurationDirectory
      ensures this.lsConfigOptions == lsConfigOptions && this.jvmConfigOptions == jvmConfigOptions
      ensures javaHome == None && lsHome == None && lsPathConf == None
    {
      this.configurationDirectory := configurationDirectory;
      this.lsConfigOptions := lsConfigOptions;
      this.jvmConfigOptions := jvmConfigOptions;
      javaHome := None;
      lsHome := None;
      lsPathConf := None;
    }

    /** `LogstashConfigurator(configuration_directory)`: parse `logstash.yml` (a
        ValueError for a line with two or more colons), `jvm.options`, then `/etc/environment`
        (an IOError when it is missing, an IndexError for a matching line without `=`). */
    static method Open(fs: FileSystem, dir: string) returns (r: Result<LogstashConfigurator>)
      ensures YamlOptions(fs, dir).Err? ==> r == Err(ValueError)
      ensures YamlOptions(fs, dir).Ok? && EnvironmentPath !in fs ==> r == Err(IOError)
      ensures YamlOptions(fs, dir).Ok? && EnvironmentPath in fs ==>
        var outcome := EnvironmentFile.ParseLines(EnvironmentChain, map[], SplitLines(fs[EnvironmentPath]));
        (r.Err? <==> outcome.error.Some?)
        && (r.Err? ==> r.error == IndexError)
        && (r.Ok? ==> fresh(r.value) && r.value.configurationDirectory == dir
                      && r.value.lsConfigOptions == YamlOptions(fs, dir).value
                      && r.value.jvmConfigOptions == JvmOptions(fs, dir)
                      && r.value.javaHome == Get(outcome.state, "java_home")
                      && r.value.lsPathConf == Get(outcome.state, "ls_path_conf")
                      && r.value.lsHome == Get(outcome.state, "ls_home"))
    {
      var yaml := ParseLogstashYaml(fs, dir);
      if yaml.Err? {
        YamlErrorIff(SplitLines(fs[YamlPath(dir)]));
        return Err(yaml.error);
      }
      var jvm := ParseJvmOptions(fs, dir);
      var c := new LogstashConfigurator(dir, yaml.value, jvm);
      var error := c.ParseEnvironmentFile(fs);
      if error.Some? {
        if EnvironmentPath in fs {
          EnvironmentFile.ParseErrorIff(EnvironmentChain, map[], SplitLines(fs[EnvironmentPath]));
        }
        return Err(error.value);
      }
      return Ok(c);
    }

    /** `_parse_environment_file`: each line is matched against JAVA_HOME, LS_PATH_CONF
        and LS_HOME in that order; a matching line that raises leaves the assignments
        made before it in place. */
    method ParseEnvironmentFile(fs: FileSystem) returns (error: Option<Exception>)
      modifies this
      ensures configurationDirectory == old(configurationDirectory)
      ensures lsConfigOptions == old(lsConfigOptions) && jvmConfigOptions == old(jvmConfigOptions)
      ensures EnvironmentPath !in fs ==>
        error == Some(IOError) && javaHome == old(javaHome) && lsPathConf == old(lsPathConf) && lsHome == old(lsHome)
      ensures EnvironmentPath in fs ==>
        var outcome := EnvironmentFile.ParseLines(EnvironmentChain, EnvironmentState(old(javaHome), old(lsPathConf), old(lsHome)),
                                                  SplitLines(fs[EnvironmentPath]));
        error == outcome.error
        && javaHome == Get(outcome.state, "java_home")
        && lsPathConf == Get(outcome.state, "ls_path_conf")
        && lsHome == Get(outcome.state, "ls_home")
    {
      if EnvironmentPath !in fs {
        return Some(IOError);
      }
      var outcome := EnvironmentFile.Parse(EnvironmentChain, EnvironmentState(javaHome, lsPathConf, lsHome),
                                            SplitLines(fs[EnvironmentPath]));
      javaHome := Get(outcome.state, "java_home");
      lsPathConf := Get(outcome.state, "ls_path_conf");
      lsHome := Get(outcome.state, "ls_home");
      error := outcome.error;
    }

    /** `_overwrite_jvm_options`: read `jvm.options` (an IOError if it is missing) and
        rewrite it from `jvmConfigOptions`. */
    method OverwriteJvmOptions(fs: FileSystem) returns (r: Result<FileSystem>)
      ensures r == OverwrittenJvm(jvmConfigOptions, fs, configurationDirectory)
    {
      var path := JvmPath(configurationDirectory);
      if path !in fs {
        return Err(IOError);
      }
      var output := RewriteLines(jvmConfigOptions, SplitLines(fs[path]));
      match output
      case Err(e) => return Err(e);
      case Ok(text) => return Ok(fs[path := text]);
    }

    /** The loop of `write_configs` that writes `'{}: {}\n'.format(k, v)` for each
        entry, in the dictionary's iteration order `order`. */
    method SerialiseOptions(order: seq<string>) returns (content: string)
      requires forall i :: 0 <= i < |order| ==> order[i] in lsConfigOptions
      ensures content == Concat(YamlLines(lsConfigOptions, order))
    {
      content := "";
      var i := 0;
      while i < |order|
        invariant 0 <= i <= |order|
        invariant content == Concat(YamlLines(lsConfigOptions, order[..i]))
      {
        var k := order[i];
        assert YamlLines(lsConfigOptions, order[..i + 1]) == YamlLines(lsConfigOptions, order[..i]) + [YamlLine(k, lsConfigOptions[k])];
        ConcatAppend(YamlLines(lsConfigOptions, order[..i]), [YamlLine(k, lsConfigOptions[k])]);
        assert Concat([YamlLine(k, lsConfigOptions[k])]) == YamlLine(k, lsConfigOptions[k]);
        content := content + (k + ": " + lsConfigOptions[k] + "\n");
        i := i + 1;
      }
      assert order[..i] == order;
    }

    /** `write_configs` with the dictionary's iteration order `order` and the
        backup time stamp `timestamp`. */
    method WriteConfigs(fs: FileSystem, order: seq<string>, timestamp: nat) returns (outcome: WriteOutcome)
      requires Enumerates(order, lsConfigOptions)
      ensures outcome == ConfigsWritten(fs, configurationDirectory, Concat(YamlLines(lsConfigOptions, order)),
                                        jvmConfigOptions, timestamp)
    {
      var dir := configurationDirectory;
      var yml, jvm := YamlPath(dir), JvmPath(dir);
      if yml !in fs {
        return WriteOutcome(fs, Some(IOError));
      }
      var files := Moved(fs, yml, YamlBackupPath(dir, timestamp));
      if jvm !in files {
        return WriteOutcome(files, Some(IOError));
      }
      files := Copied(files, jvm, JvmBackupPath(dir, timestamp));
      var content := SerialiseOptions(order);
      files := files[yml := Existing(files, yml) + content];
      var rewritten := OverwriteJvmOptions(files);
      if rewritten.Err? {
        return WriteOutcome(files, Some(rewritten.error));
      }
      return WriteOutcome(rewritten.value, None);
    }

    function GetLogPath(): (r: Option<string>)
      reads this
      ensures r.Some? <==> "path.logs" in lsConfigOptions
      ensures r.Some? ==> r.value == lsConfigOptions["path.logs"]
    {
      Get(lsConfigOptions, "path.logs")
    }

    function GetNodeName(): (r: Option<string>)
      reads this
      ensures r.Some? <==> "node.name" in lsConfigOptions
      ensures r.Some? ==> r.value == lsConfigOptions["node.name"]
    {
      Get(lsConfigOptions, "node.name")
    }

    function GetDataPath(): (r: Option<string>)
      reads this
      ensures r.Some? <==> "path.data" in lsConfigOptions
      ensures r.Some? ==> r.value == lsConfigOptions["path.data"]
    {
      Get(lsConfigOptions, "path.data")
    }

    function GetPipelineBatchSize(): (r: Option<string>)
      reads this
      ensures r.Some? <==> "pipeline.batch.size" in lsConfigOptions
      ensures r.Some? ==> r.value == lsConfigOptions["pipeline.batch.size"]
    {
      Get(lsConfigOptions, "pipeline.batch.size")
    }

    function GetPipelineBatchDelay(): (r: Option<string>)
      reads this
      ensures r.Some? <==> "pipeline.batch.delay" in lsConfigOptions
      ensures r.Some? ==> r.value == lsConfigOptions["pipeline.batch.delay"]
    {
      Get(lsConfigOptions, "pipeline.batch.delay")
    }

    function GetJvmInitialMemory(): (r: Option<string>)
      reads this
      ensures r.Some? <==> HeapKey(Initial) in jvmConfigOptions
      ensures r.Some? ==> r.value == jvmConfigOptions[HeapKey(Initial)]
    {
      Get(jvmConfigOptions, HeapKey(Initial))
    }

    function GetJvmMaximumMemory(): (r: Option<string>)
      reads this
      ensures r.Some? <==> HeapKey(Maximum) in jvmConfigOptions
      ensures r.Some? ==> r.value == jvmConfigOptions[HeapKey(Maximum)]
    {
      Get(jvmConfigOptions, HeapKey(Maximum))
    }

    /** The fields other than the two dictionaries are as they were. */
    twostate predicate SameSettings()
      reads this
    {
      configurationDirectory == old(configurationDirectory) && javaHome == old(javaHome)
      && lsHome == old(lsHome) && lsPathConf == old(lsPathConf)
    }

    method SetLogPath(path: string)
      modifies this
      ensures lsConfigOptions == old(lsConfigOptions)["path.logs" := path]
      ensures jvmConfigOptions == old(jvmConfigOptions) && SameSettings()
      ensures GetLogPath() == Some(path)
    {
      lsConfigOptions := lsConfigOptions["path.logs" := path];
    }

    method SetNodeName(name: string)
      modifies this
      ensures lsConfigOptions == old(lsConfigOptions)["node.name" := name]
      ensures jvmConfigOptions == old(jvmConfigOptions) && SameSettings()
      ensures GetNodeName() == Some(name)
    {
      lsConfigOptions := lsConfigOptions["node.name" := name];
    }

    method SetDataPath(path: string)
      modifies this
      ensures lsConfigOptions == old(lsConfigOptions)["path.data" := path]
      ensures jvmConfigOptions == old(jvmConfigOptions) && SameSettings()
      ensures GetDataPath() == Some(path)
    {
      lsConfigOptions := lsConfigOptions["path.data" := path];
    }

    /** Stores the count as the text `write_configs` will write for it. */
    method SetPipelineBatchSize(eventCount: int)
      modifies this
      ensures lsConfigOptions == old(lsConfigOptions)["pipeline.batch.size" := IntToString(eventCount)]
      ensures jvmConfigOptions == old(jvmConfigOptions) && SameSettings()
      ensures GetPipelineBatchSize().Some? && ParseInt(GetPipelineBatchSize().value) == Some(eventCount)
    {
      lsConfigOptions := lsConfigOptions["pipeline.batch.size" := IntToString(eventCount)];
      IntToStringRoundTrip(eventCount, []);
      assert IntToString(eventCount) + [] == IntToString(eventCount);
    }

    /** Stores the delay as the text `write_configs` will write for it. */
    method SetPipelineBatchDelay(delayMillisecs: int)
      modifies this
      ensures lsConfigOptions == old(lsConfigOptions)["pipeline.batch.delay" := IntToString(delayMillisecs)]
      ensures jvmConfigOptions == old(jvmConfigOptions) && SameSettings()
      ensures GetPipelineBatchDelay().Some? && ParseInt(GetPipelineBatchDelay().value) == Some(delayMillisecs)
    {
      lsConfigOptions := lsConfigOptions["pipeline.batch.delay" := IntToString(delayMillisecs)];
      IntToStringRoundTrip(delayMillisecs, []);
      assert IntToString(delayMillisecs) + [] == IntToString(delayMillisecs);
    }

    method SetJvmInitialMemory(gigs: real)
      modifies this
      ensures jvmConfigOptions == old(jvmConfigOptions)[HeapKey(Initial) := HeapSize(gigs)]
      ensures lsConfigOptions == old(lsConfigOptions) && SameSettings()
      ensures GetJvmInitialMemory() == Some(HeapSize(gigs)) && GetJvmMaximumMemory() == old(GetJvmMaximumMemory())
    {
      jvmConfigOptions := jvmConfigOptions[HeapKey(Initial) := HeapSize(gigs)];
    }

    method SetJvmMaximumMemory(gigs: real)
      modifies this
      ensures jvmConfigOptions == old(jvmConfigOptions)[HeapKey(Maximum) := HeapSize(gigs)]
      ensures lsConfigOptions == old(lsConfigOptions) && SameSettings()
      ensures GetJvmMaximumMemory() == Some(HeapSize(gigs)) && GetJvmInitialMemory() == old(GetJvmInitialMemory())
    {
      jvmConfigOptions := jvmConfigOptions[HeapKey(Maximum) := HeapSize(gigs)];
    }
  }
}
