/**
 * Rewriting `/etc/environment` the way `write_environment_variables` does:
 * the variables to write sit in a dict; every line whose key (the text before
 * its first `=`) is still in the dict is replaced by `KEY=value` and the key is
 * popped; every line is then written back followed by a newline; whatever keys
 * remain are appended as `KEY=value` lines, in the dict's order.
 */
module EnvironmentWriter {
  import opened Strings
  import LogstashConfig

  predicate Distinct(s: seq<string>) {
    forall i, j :: 0 <= i < j < |s| ==> s[i] != s[j]
  }

  lemma DistinctInit(s: seq<string>)
    requires Distinct(s) && s != []
    ensures Distinct(s[..|s| - 1]) && s[|s| - 1] !in s[..|s| - 1]
  {
  }

  /** A sequence is its front followed by its last element. */
  lemma Snoc(s: seq<string>)
    requires s != []
    ensures s == s[..|s| - 1] + [s[|s| - 1]]
  {
  }

  /** A key occurs once in a sequence without repeats. */
  lemma {:induction false} DistinctOnce(s: seq<string>, k: string)
    requires Distinct(s) && k in s
    ensures multiset(s)[k] == 1
    decreases |s|
  {
    var n := |s| - 1;
    var init := s[..n];
    assert s == init + [s[n]];
    assert Distinct(init);
    if s[n] == k {
      assert k !in init;
    } else {
      DistinctOnce(init, k);
    }
  }

  // ---------------------------------------------------------------------------
  // Python dicts of strings

  /** A dict: its keys in insertion order, and the value each key maps to. */
  datatype Dict = Dict(keys: seq<string>, values: map<string, string>)

  predicate WellFormed(d: Dict) {
    Distinct(d.keys) && d.values.Keys == set k | k in d.keys
  }

  /** `d[k] = v`: a new key goes to the end, a key already there keeps its place. */
  function Store(d: Dict, k: string, v: string): (r: Dict)
    requires WellFormed(d)
    ensures WellFormed(r) && r.values == d.values[k := v] && d.keys <= r.keys
    ensures k in d.values ==> |r.keys| == |d.keys|
  {
    if k in d.values then Dict(d.keys, d.values[k := v])
    else
      assert forall i :: 0 <= i < |d.keys| ==> (d.keys + [k])[i] == d.keys[i];
      Dict(d.keys + [k], d.values[k := v])
  }

  /** `s` with every occurrence of `x` removed, the rest in order. */
  function Without(s: seq<string>, x: string): (r: seq<string>)
    ensures forall y :: y in r <==> y in s && y != x
    ensures multiset(r) == multiset(s)[x := 0]
    ensures Distinct(s) ==> Distinct(r)
    decreases |s|
  {
    if s == [] then []
    else
      var init := s[..|s| - 1];
      var last := s[|s| - 1];
      assert s == init + [last];
      assert Distinct(s) ==> Distinct(init) && last !in init;
      if last == x then Without(init, x)
      else
        var r := Without(init, x) + [last];
        assert multiset(r) == multiset(Without(init, x)) + multiset{last};
        assert multiset(s) == multiset(init) + multiset{last};
        r
  }

  /** `d.pop(k, None)`. */
  function Pop(d: Dict, k: string): (r: Dict)
    requires WellFormed(d)
    ensures WellFormed(r) && r.values == d.values - {k}
    ensures multiset(r.keys) == multiset(d.keys)[k := 0]
  {
    Dict(Without(d.keys, k), d.values - {k})
  }

  /** The dict `{keys[k]: values[k]}`, its keys inserted in order. */
  function Collect(keys: seq<string>, values: seq<string>): (d: Dict)
    requires |keys| == |values|
    ensures WellFormed(d) && forall k :: k in keys <==> k in d.values
    decreases |keys|
  {
    if keys == [] then Dict([], map[])
    else Store(Collect(keys[..|keys| - 1], values[..|values| - 1]), keys[|keys| - 1], values[|values| - 1])
  }

  /** Collecting one more pair stores it. */
  lemma CollectSnoc(keys: seq<string>, values: seq<string>, k: nat)
    requires |keys| == |values| && k < |keys|
    ensures Collect(keys[..k + 1], values[..k + 1]) == Store(Collect(keys[..k], values[..k]), keys[k], values[k])
  {
    assert keys[..k + 1][..k] == keys[..k] && values[..k + 1][..k] == values[..k];
  }

  /** Storing a key not yet there appends it. */
  lemma StoreNew(d: Dict, k: string, v: string)
    requires WellFormed(d) && k !in d.keys
    ensures Store(d, k, v) == Dict(d.keys + [k], d.values[k := v])
  {
  }

  /** With distinct keys, the dict lists them in order and maps each to its
      value. */
  lemma {:induction false} CollectContents(keys: seq<string>, values: seq<string>)
    requires |keys| == |values| && Distinct(keys)
    ensures Collect(keys, values).keys == keys
    ensures forall k :: 0 <= k < |keys| ==> Collect(keys, values).values[keys[k]] == values[k]
    decreases |keys|
  {
    if keys != [] {
      var n := |keys| - 1;
      var init, vinit := keys[..n], values[..n];
      DistinctInit(keys);
      CollectContents(init, vinit);
      var d := Collect(init, vinit);
      var c := Collect(keys, values);
      assert c == Store(d, keys[n], values[n]);
      StoreNew(d, keys[n], values[n]);
      Snoc(keys);
      forall k | 0 <= k < n
        ensures c.values[keys[k]] == values[k]
      {
        assert init[k] == keys[k] && vinit[k] == values[k];
        assert keys[k] != keys[n];
      }
    }
  }

  // ---------------------------------------------------------------------------
  // The rewriting loop

  /** `line.split('=')[0]`: the text before the first `=`. */
  function KeyOf(line: string): (k: string)
    requires '=' in line
    ensures k == line[..IndexOf(line, '=')] && '=' !in k && k <= line
  {
    var i := IndexOf(line, '=');
    assert line == line[..i] + ['='] + line[i + 1..];
    SplitAt(line[..i], '=', line[i + 1..]);
    Split(line, '=')[0]
  }

  /** The keys of the lines that hold an `=`. */
  function KeysIn(lines: seq<string>): set<string> {
    set i | 0 <= i < |lines| && '=' in lines[i] :: KeyOf(lines[i])
  }

  /** What the loop makes of one line. */
  datatype Segment = Untouched(line: string) | Rewritten(key: string, value: string)

  /** The loop's state: what it made of each line so far, the dict of keys not yet
      written, and the keys it wrote in place, in order. */
  datatype Pass = Pass(segments: seq<Segment>, pending: Dict, rewritten: seq<string>)

  /** One iteration of the loop over the file's lines. */
  function Rewrite(p: Pass, line: string): Pass
    requires WellFormed(p.pending)
  {
    if '=' in line && KeyOf(line) in p.pending.values then
      var k := KeyOf(line);
      Pass(p.segments + [Rewritten(k, p.pending.values[k])], Pop(p.pending, k), p.rewritten + [k])
    else
      Pass(p.segments + [Untouched(line)], p.pending, p.rewritten)
  }

  /** The loop over all lines, starting from the dict `d`. */
  function Upsert(d: Dict, lines: seq<string>): (p: Pass)
    requires WellFormed(d)
    ensures WellFormed(p.pending)
    decreases |lines|
  {
    if lines == [] then Pass([], d, [])
    else Rewrite(Upsert(d, lines[..|lines| - 1]), lines[|lines| - 1])
  }

  /** What the loop makes of line `i`, said without the loop: the line rewritten
      when its key is in the dict and no earlier line had that key, otherwise the
      line as it was. */
  function SegmentAt(d: Dict, lines: seq<string>, i: nat): Segment
    requires i < |lines|
  {
    var line := lines[i];
    if '=' in line && KeyOf(line) in d.values && KeyOf(line) !in KeysIn(lines[..i]) then
      Rewritten(KeyOf(line), d.values[KeyOf(line)])
    else Untouched(line)
  }

  /** What the loop has done after reading `lines`: one segment per line as
      `SegmentAt` says; the keys no line had are still pending with their values;
      and every key of the dict is either written in place or pending, once. */
  predicate Upserted(d: Dict, lines: seq<string>, p: Pass) {
    |p.segments| == |lines|
    && (forall i :: 0 <= i < |lines| ==> p.segments[i] == SegmentAt(d, lines, i))
    && p.pending.values == d.values - KeysIn(lines)
    && multiset(p.rewritten) + multiset(p.pending.keys) == multiset(d.keys)
  }

  lemma KeysInSnoc(lines: seq<string>, line: string)
    ensures KeysIn(lines + [line]) == KeysIn(lines) + (if '=' in line then {KeyOf(line)} else {})
  {
    var all := lines + [line];
    assert forall i :: 0 <= i < |lines| ==> all[i] == lines[i];
    assert all[|lines|] == line;
  }

  /** Lines already read keep their segments, whose earlier lines are the same. */
  lemma StepKeepsSegments(d: Dict, lines: seq<string>, line: string, p: Pass)
    requires WellFormed(p.pending) && |p.segments| == |lines|
    requires forall i :: 0 <= i < |lines| ==> p.segments[i] == SegmentAt(d, lines, i)
    ensures var q := Rewrite(p, line);
      forall i :: 0 <= i < |lines| ==> q.segments[i] == SegmentAt(d, lines + [line], i)
  {
    var all := lines + [line];
    var q := Rewrite(p, line);
    assert q.segments[..|lines|] == p.segments;
    forall i | 0 <= i < |lines|
      ensures q.segments[i] == SegmentAt(d, all, i)
    {
      assert all[..i] == lines[..i];
      assert all[i] == lines[i];
      assert q.segments[i] == p.segments[i];
    }
  }

  /** The new line's segment is the one `SegmentAt` gives. */
  lemma StepNewSegment(d: Dict, lines: seq<string>, line: string, p: Pass)
    requires WellFormed(p.pending) && |p.segments| == |lines|
    requires p.pending.values == d.values - KeysIn(lines)
    ensures Rewrite(p, line).segments[|lines|] == SegmentAt(d, lines + [line], |lines|)
  {
    var all := lines + [line];
    assert all[..|lines|] == lines && all[|lines|] == line;
  }

  lemma MinusMore(m: map<string, string>, a: set<string>, k: string)
    ensures (m - a) - {k} == m - (a + {k})
  {
    assert ((m - a) - {k}).Keys == (m - (a + {k})).Keys;
  }

  lemma MinusAbsent(m: map<string, string>, a: set<string>, k: string)
    requires k !in m - a
    ensures m - a == m - (a + {k})
  {
    assert (m - a).Keys == (m - (a + {k})).Keys;
  }

  /** The pending dict loses exactly the new line's key. */
  lemma StepPendingValues(d: Dict, lines: seq<string>, line: string, p: Pass)
    requires WellFormed(p.pending)
    requires p.pending.values == d.values - KeysIn(lines)
    ensures Rewrite(p, line).pending.values == d.values - KeysIn(lines + [line])
  {
    KeysInSnoc(lines, line);
    if '=' in line {
      var k := KeyOf(line);
      if k in p.pending.values {
        MinusMore(d.values, KeysIn(lines), k);
      } else {
        MinusAbsent(d.values, KeysIn(lines), k);
      }
    }
  }

  /** A key written in place leaves the pending keys. */
  lemma StepPendingKeys(d: Dict, line: string, p: Pass)
    requires WellFormed(p.pending)
    requires multiset(p.rewritten) + multiset(p.pending.keys) == multiset(d.keys)
    ensures var q := Rewrite(p, line);
      multiset(q.rewritten) + multiset(q.pending.keys) == multiset(d.keys)
  {
    var q := Rewrite(p, line);
    if '=' in line && KeyOf(line) in p.pending.values {
      var k := KeyOf(line);
      DistinctOnce(p.pending.keys, k);
      assert multiset(q.pending.keys) + multiset{k} == multiset(p.pending.keys);
      assert multiset(q.rewritten) == multiset(p.rewritten) + multiset{k};
    }
  }

  /** One more line keeps `Upserted`. */
  lemma UpsertStep(d: Dict, lines: seq<string>, line: string, p: Pass)
    requires WellFormed(p.pending) && Upserted(d, lines, p)
    ensures Upserted(d, lines + [line], Rewrite(p, line))
  {
    StepKeepsSegments(d, lines, line, p);
    StepNewSegment(d, lines, line, p);
    StepPendingValues(d, lines, line, p);
    StepPendingKeys(d, line, p);
  }

  /** The loop does what `Upserted` says. */
  lemma {:induction false} UpsertSpec(d: Dict, lines: seq<string>)
    requires WellFormed(d)
    ensures Upserted(d, lines, Upsert(d, lines))
    decreases |lines|
  {
    if lines == [] {
      assert KeysIn(lines) == {};
    } else {
      var init := lines[..|lines| - 1];
      UpsertSpec(d, init);
      assert lines == init + [lines[|lines| - 1]];
      UpsertStep(d, init, lines[|lines| - 1], Upsert(d, init));
    }
  }

  // ---------------------------------------------------------------------------
  // The text written

  /** `line + '\n'`, where a rewritten line is `KEY=value`. */
  function Render(s: Segment): string {
    match s
    case Untouched(l) => l + "\n"
    case Rewritten(k, v) => LogstashConfig.Assignment(k, v)
  }

  /** `new_env_content` after the loop over the lines. */
  function Rendered(segments: seq<Segment>): string
    decreases |segments|
  {
    if segments == [] then []
    else Rendered(segments[..|segments| - 1]) + Render(segments[|segments| - 1])
  }

  /** The `KEY=value` lines appended for the keys left in the dict, in its order. */
  function Assignments(keys: seq<string>, values: map<string, string>): string
    requires forall k :: k in keys ==> k in values
    decreases |keys|
  {
    if keys == [] then []
    else Assignments(keys[..|keys| - 1], values) + LogstashConfig.Assignment(keys[|keys| - 1], values[keys[|keys| - 1]])
  }

  /** The whole new content of the file. */
  function WrittenText(d: Dict, lines: seq<string>): string
    requires WellFormed(d)
  {
    var p := Upsert(d, lines);
    Rendered(p.segments) + Assignments(p.pending.keys, p.pending.values)
  }
  lemma UpsertSnoc(d: Dict, lines: seq<string>, i: nat)
    requires WellFormed(d) && i < |lines|
    ensures Upsert(d, lines[..i + 1]) == Rewrite(Upsert(d, lines[..i]), lines[i])
  {
    assert lines[..i + 1][..i] == lines[..i];
  }

  lemma RenderedSnoc(segments: seq<Segment>, s: Segment)
    ensures Rendered(segments + [s]) == Rendered(segments) + Render(s)
  {
    assert (segments + [s])[..|segments|] == segments;
  }

  /** The line the loop writes in place of `line`: `KEY=value` when its key is
      still in the dict, the line itself otherwise. */
  function LineWritten(pending: Dict, line: string): string
    requires WellFormed(pending)
  {
    if '=' in line && KeyOf(line) in pending.values then KeyOf(line) + "=" + pending.values[KeyOf(line)] else line
  }

  /** One iteration adds that line and a newline to the text. */
  lemma RewriteText(p: Pass, line: string)
    requires WellFormed(p.pending)
    ensures Rendered(Rewrite(p, line).segments) == Rendered(p.segments) + (LineWritten(p.pending, line) + "\n")
  {
    var q := Rewrite(p, line);
    var segment := q.segments[|p.segments|];
    assert q.segments == p.segments + [segment];
    RenderedSnoc(p.segments, segment);
  }

  /** `for line in lines`: each line whose key is still in the dict rewritten as
      `KEY=value` and its key popped, every line then followed by a newline. */
  method RewriteLines(d: Dict, lines: seq<string>) returns (content: string, pending: Dict)
    requires WellFormed(d)
    ensures pending == Upsert(d, lines).pending && WellFormed(pending)
    ensures content == Rendered(Upsert(d, lines).segments)
  {
    pending := d;
    content := "";
    ghost var p := Pass([], d, []);
    assert lines[..0] == [];
    var i := 0;
    while i < |lines|
      invariant 0 <= i <= |lines|
      invariant p == Upsert(d, lines[..i])
      invariant pending == p.pending && content == Rendered(p.segments)
    {
      UpsertSnoc(d, lines, i);
      RewriteText(p, lines[i]);
      var line := lines[i];
      if '=' in line {
        var key := KeyOf(line);
        if key in pending.values {
          line := key + "=" + pending.values[key];
          pending := Pop(pending, key);
        }
      }
      content := content + (line + "\n");
      p := Rewrite(p, lines[i]);
      i := i + 1;
    }
    assert lines[..i] == lines;
  }

  /** `for unwritten_key, unwritten_val in elastiflow_vars_map.items()`: a
      `KEY=value` line per key left, in the dict's order. */
  method AppendPending(content: string, pending: Dict) returns (r: string)
    requires WellFormed(pending)
    ensures r == content + Assignments(pending.keys, pending.values)
  {
    r := content;
    var t := 0;
    while t < |pending.keys|
      invariant 0 <= t <= |pending.keys|
      invariant r == content + Assignments(pending.keys[..t], pending.values)
    {
      AssignmentsSnoc(pending.keys, pending.values, t);
      Associative(content, Assignments(pending.keys[..t], pending.values),
        LogstashConfig.Assignment(pending.keys[t], pending.values[pending.keys[t]]));
      r := r + LogstashConfig.Assignment(pending.keys[t], pending.values[pending.keys[t]]);
      t := t + 1;
    }
    assert pending.keys[..t] == pending.keys;
  }

  lemma Associative(a: string, b: string, c: string)
    ensures (a + b) + c == a + (b + c)
  {
  }

  lemma AssignmentsSnoc(keys: seq<string>, values: map<string, string>, t: nat)
    requires forall k :: k in keys ==> k in values
    requires t < |keys|
    ensures Assignments(keys[..t + 1], values) == Assignments(keys[..t], values) + LogstashConfig.Assignment(keys[t], values[keys[t]])
  {
    assert keys[..t + 1][..t] == keys[..t];
  }



  // ---------------------------------------------------------------------------
  // The written text as lines

  /** The lines `readlines()` gives back for what one segment writes: an
      untouched line that kept its own newline is followed by an empty line. */
  function SegmentLines(s: Segment): seq<string> {
    match s
    case Untouched(l) => if l != [] && l[|l| - 1] == '\n' then [l, "\n"] else [l + "\n"]
    case Rewritten(k, v) => [LogstashConfig.Assignment(k, v)]
  }

  function OutputLines(segments: seq<Segment>): seq<string>
    decreases |segments|
  {
    if segments == [] then []
    else OutputLines(segments[..|segments| - 1]) + SegmentLines(segments[|segments| - 1])
  }

  function AssignmentLines(keys: seq<string>, values: map<string, string>): (ls: seq<string>)
    requires forall k :: k in keys ==> k in values
  {
    seq(|keys|, t requires 0 <= t < |keys| => LogstashConfig.Assignment(keys[t], values[keys[t]]))
  }

  lemma RenderLines(s: Segment)
    ensures Render(s) == Concat(SegmentLines(s))
  {
    match s
    case Untouched(l) =>
      if l != [] && l[|l| - 1] == '\n' {
        assert Concat([l, "\n"]) == l + Concat(["\n"]);
      }
    case Rewritten(k, v) =>
  }

  lemma {:induction false} RenderedLines(segments: seq<Segment>)
    ensures Rendered(segments) == Concat(OutputLines(segments))
    decreases |segments|
  {
    if segments != [] {
      var n := |segments| - 1;
      RenderedLines(segments[..n]);
      RenderLines(segments[n]);
      ConcatAppend(OutputLines(segments[..n]), SegmentLines(segments[n]));
    }
  }

  lemma {:induction false} AssignmentsLines(keys: seq<string>, values: map<string, string>)
    requires forall k :: k in keys ==> k in values
    ensures Assignments(keys, values) == Concat(AssignmentLines(keys, values))
    decreases |keys|
  {
    if keys != [] {
      var n := |keys| - 1;
      AssignmentsLines(keys[..n], values);
      var last := LogstashConfig.Assignment(keys[n], values[keys[n]]);
      assert AssignmentLines(keys, values) == AssignmentLines(keys[..n], values) + [last];
      ConcatAppend(AssignmentLines(keys[..n], values), [last]);
      assert Concat([last]) == last + Concat([]);
    }
  }

  /** A segment whose text is whole lines: an untouched line as `readlines()`
      returns it, or a rewritten key and value without line breaks. */
  predicate SegmentOk(s: Segment) {
    match s
    case Untouched(l) => l != [] && '\n' !in l[..|l| - 1]
    case Rewritten(k, v) => '\n' !in k && '\n' !in v
  }

  lemma SegmentWholeLines(s: Segment)
    requires SegmentOk(s)
    ensures forall i :: 0 <= i < |SegmentLines(s)| ==> IsLine(SegmentLines(s)[i])
  {
    match s
    case Untouched(l) =>
      if l[|l| - 1] != '\n' {
        assert l == l[..|l| - 1] + [l[|l| - 1]];
        assert (l + "\n")[..|l|] == l;
      }
    case Rewritten(k, v) =>
      LogstashConfig.AssignmentIsLine(k, v);
  }

  lemma {:induction false} OutputWholeLines(segments: seq<Segment>)
    requires forall i :: 0 <= i < |segments| ==> SegmentOk(segments[i])
    ensures forall i :: 0 <= i < |OutputLines(segments)| ==> IsLine(OutputLines(segments)[i])
    decreases |segments|
  {
    if segments != [] {
      var n := |segments| - 1;
      OutputWholeLines(segments[..n]);
      SegmentWholeLines(segments[n]);
    }
  }

  /** Keys and values without line breaks. */
  predicate OneLine(d: Dict) {
    forall k :: k in d.values ==> '\n' !in k && '\n' !in d.values[k]
  }

  /** Every segment the loop makes is whole lines. */
  lemma SegmentsOk(d: Dict, lines: seq<string>)
    requires WellFormed(d) && OneLine(d) && IsReadLines(lines)
    ensures var p := Upsert(d, lines);
      forall i :: 0 <= i < |p.segments| ==> SegmentOk(p.segments[i])
  {
    UpsertSpec(d, lines);
  }

  /** What `readlines()` gives back from the written file: the lines the loop
      wrote, then one `KEY=value` line per key still pending. */
  lemma WrittenLines(d: Dict, lines: seq<string>)
    requires WellFormed(d) && OneLine(d) && IsReadLines(lines)
    ensures var p := Upsert(d, lines);
      SplitLines(WrittenText(d, lines))
      == OutputLines(p.segments) + AssignmentLines(p.pending.keys, p.pending.values)
  {
    var p := Upsert(d, lines);
    UpsertSpec(d, lines);
    SegmentsOk(d, lines);
    OutputWholeLines(p.segments);
    var out := OutputLines(p.segments);
    var appended := AssignmentLines(p.pending.keys, p.pending.values);
    assert forall t :: 0 <= t < |appended| ==> IsLine(appended[t]) by {
      forall t | 0 <= t < |appended| ensures IsLine(appended[t]) {
        LogstashConfig.AssignmentIsLine(p.pending.keys[t], p.pending.values[p.pending.keys[t]]);
      }
    }
    RenderedLines(p.segments);
    AssignmentsLines(p.pending.keys, p.pending.values);
    ConcatAppend(out, appended);
    SplitLinesConcat(out + appended);
  }

  // ---------------------------------------------------------------------------
  // Line breaks of untouched lines

  /** An untouched line comes back from `readlines()` as itself followed by an
      empty line: the loop adds a newline to a line that already ends with one. */
  lemma UntouchedLineGainsBlank(l: string)
    requires IsLine(l)
    ensures SplitLines(Render(Untouched(l))) == [l, "\n"]
  {
    var a := [l, "\n"];
    assert a[1..] == ["\n"] && a[1..][1..] == [];
    assert "\n" + [] == "\n";
    assert Concat(a[1..]) == "\n";
    SplitLinesConcat(a);
  }

  /** A line written back with its own line break kept: only a last line without
      one gains one. */
  function KeptLine(l: string): string {
    if l != [] && l[|l| - 1] == '\n' then l else l + "\n"
  }

  function Kept(lines: seq<string>): (ks: seq<string>)
    ensures |ks| == |lines| && forall i :: 0 <= i < |lines| ==> ks[i] == KeptLine(lines[i])
  {
    seq(|lines|, i requires 0 <= i < |lines| => KeptLine(lines[i]))
  }

  /** Each line, written back with its own break, is a whole line; every line but
      the last already was. */
  lemma KeptLines(lines: seq<string>)
    requires IsReadLines(lines)
    ensures forall i :: 0 <= i < |lines| ==> IsLine(Kept(lines)[i])
    ensures forall i :: 0 <= i < |lines| && lines[i][|lines[i]| - 1] == '\n' ==> Kept(lines)[i] == lines[i]
  {
    forall i | 0 <= i < |lines|
      ensures IsLine(KeptLine(lines[i]))
    {
      var l := lines[i];
      if l[|l| - 1] != '\n' {
        assert (l + "\n")[..|l|] == l;
      }
    }
  }

  /** Writing every line back with its own break, `readlines()` gives back the
      original lines, the last one with a newline if it had none; a file that
      ends with a newline comes back exactly. */
  lemma KeptLinesReadBack(lines: seq<string>)
    requires IsReadLines(lines)
    ensures SplitLines(Concat(Kept(lines))) == Kept(lines)
    ensures forall i :: 0 <= i < |lines| - 1 ==> Kept(lines)[i] == lines[i]
    ensures lines != [] && lines[|lines| - 1][|lines[|lines| - 1]| - 1] == '\n' ==> SplitLines(Concat(Kept(lines))) == lines
  {
    KeptLines(lines);
    SplitLinesConcat(Kept(lines));
  }

  // ---------------------------------------------------------------------------
  // The writer with line breaks kept

  /** What one segment writes when an untouched line keeps its own break. */
  function KeptRender(s: Segment): string {
    match s
    case Untouched(l) => KeptLine(l)
    case Rewritten(k, v) => LogstashConfig.Assignment(k, v)
  }

  function KeptRendered(segments: seq<Segment>): string
    decreases |segments|
  {
    if segments == [] then []
    else KeptRendered(segments[..|segments| - 1]) + KeptRender(segments[|segments| - 1])
  }

  /** The new content of the file as the loop evidently means it: the same
      rewrites and appended keys, but no untouched line gains a second break. */
  function CorrectedText(d: Dict, lines: seq<string>): string
    requires WellFormed(d)
  {
    var p := Upsert(d, lines);
    KeptRendered(p.segments) + Assignments(p.pending.keys, p.pending.values)
  }

  /** One line per segment, each what that segment writes. */
  function KeptOutputLines(segments: seq<Segment>): (ls: seq<string>)
    ensures |ls| == |segments| && forall i :: 0 <= i < |segments| ==> ls[i] == KeptRender(segments[i])
    decreases |segments|
  {
    if segments == [] then []
    else KeptOutputLines(segments[..|segments| - 1]) + [KeptRender(segments[|segments| - 1])]
  }

  lemma {:induction false} KeptRenderedLines(segments: seq<Segment>)
    ensures KeptRendered(segments) == Concat(KeptOutputLines(segments))
    decreases |segments|
  {
    if segments != [] {
      var n := |segments| - 1;
      KeptRenderedLines(segments[..n]);
      var last := KeptRender(segments[n]);
      ConcatAppend(KeptOutputLines(segments[..n]), [last]);
      ConcatOne(last);
    }
  }

  lemma ConcatOne(a: string)
    ensures Concat([a]) == a
  {
    assert [a][1..] == [];
  }

  lemma KeptRenderIsLine(s: Segment)
    requires SegmentOk(s)
    ensures IsLine(KeptRender(s))
  {
    match s
    case Untouched(l) =>
      if l[|l| - 1] != '\n' {
        assert (l + "\n")[..|l|] == l;
      }
    case Rewritten(k, v) =>
      LogstashConfig.AssignmentIsLine(k, v);
  }

  lemma KeptOutputWholeLines(segments: seq<Segment>)
    requires forall i :: 0 <= i < |segments| ==> SegmentOk(segments[i])
    ensures forall i :: 0 <= i < |segments| ==> IsLine(KeptOutputLines(segments)[i])
  {
    forall i | 0 <= i < |segments| ensures IsLine(KeptOutputLines(segments)[i]) {
      KeptRenderIsLine(segments[i]);
    }
  }

  /** Whole-line segments, then whole `KEY=value` lines, come back line by line. */
  lemma KeptTextLines(segments: seq<Segment>, keys: seq<string>, values: map<string, string>)
    requires forall i :: 0 <= i < |segments| ==> SegmentOk(segments[i])
    requires forall k :: k in keys ==> k in values && '\n' !in k && '\n' !in values[k]
    ensures SplitLines(KeptRendered(segments) + Assignments(keys, values))
      == KeptOutputLines(segments) + AssignmentLines(keys, values)
  {
    var out := KeptOutputLines(segments);
    var appended := AssignmentLines(keys, values);
    KeptOutputWholeLines(segments);
    assert forall t :: 0 <= t < |appended| ==> IsLine(appended[t]) by {
      forall t | 0 <= t < |appended| ensures IsLine(appended[t]) {
        LogstashConfig.AssignmentIsLine(keys[t], values[keys[t]]);
      }
    }
    KeptRenderedLines(segments);
    AssignmentsLines(keys, values);
    ConcatAppend(out, appended);
    SplitLinesConcat(out + appended);
  }

  /** What `readlines()` gives back from the corrected file: the lines the loop
      wrote, each untouched line with only its own break, then one `KEY=value`
      line per key still pending. */
  lemma CorrectedWrittenLines(d: Dict, lines: seq<string>)
    requires WellFormed(d) && OneLine(d) && IsReadLines(lines)
    ensures var p := Upsert(d, lines);
      SplitLines(CorrectedText(d, lines))
      == KeptOutputLines(p.segments) + AssignmentLines(p.pending.keys, p.pending.values)
  {
    var p := Upsert(d, lines);
    UpsertSpec(d, lines);
    SegmentsOk(d, lines);
    forall k | k in p.pending.keys
      ensures k in p.pending.values && '\n' !in k && '\n' !in p.pending.values[k]
    {
      assert k in p.pending.values.Keys;
      assert k in d.values && p.pending.values[k] == d.values[k];
    }
    KeptTextLines(p.segments, p.pending.keys, p.pending.values);
  }

  /** Line by line: `KEY=value` where the loop rewrote the line, the line as read
      (a break added only to a last line without one) where it did not. */
  lemma CorrectedLineAt(d: Dict, lines: seq<string>, i: nat)
    requires WellFormed(d) && OneLine(d) && IsReadLines(lines) && i < |lines|
    ensures var back := SplitLines(CorrectedText(d, lines));
      |back| == |lines| + |Upsert(d, lines).pending.keys|
      && back[i] == (match SegmentAt(d, lines, i)
                     case Untouched(l) => KeptLine(lines[i])
                     case Rewritten(k, v) => LogstashConfig.Assignment(k, v))
  {
    CorrectedWrittenLines(d, lines);
    UpsertSpec(d, lines);
    var p := Upsert(d, lines);
    assert p.segments[i] == SegmentAt(d, lines, i);
  }

  /** No line holds a key of the dict: the loop leaves every line as it was and
      the dict as it was. */
  lemma {:induction false} NothingRewritten(d: Dict, lines: seq<string>)
    requires WellFormed(d)
    requires forall i :: 0 <= i < |lines| && '=' in lines[i] ==> KeyOf(lines[i]) !in d.values
    ensures Upsert(d, lines).pending == d && |Upsert(d, lines).segments| == |lines|
    ensures forall i :: 0 <= i < |lines| ==> Upsert(d, lines).segments[i] == Untouched(lines[i])
    decreases |lines|
  {
    if lines != [] {
      var n := |lines| - 1;
      NothingRewritten(d, lines[..n]);
      var p := Upsert(d, lines[..n]);
      assert Upsert(d, lines) == Rewrite(p, lines[n]);
      forall i | 0 <= i < n ensures lines[..n][i] == lines[i] { }
    }
  }

  /** A file that ends with a newline and none of whose keys is in the dict
      comes back from the corrected writer as it was, followed by the dict's
      keys in order. */
  lemma CorrectedKeepsFile(d: Dict, lines: seq<string>)
    requires WellFormed(d) && OneLine(d) && IsReadLines(lines)
    requires forall i :: 0 <= i < |lines| && '=' in lines[i] ==> KeyOf(lines[i]) !in d.values
    requires lines != [] ==> lines[|lines| - 1][|lines[|lines| - 1]| - 1] == '\n'
    ensures SplitLines(CorrectedText(d, lines)) == lines + AssignmentLines(d.keys, d.values)
  {
    var p := Upsert(d, lines);
    CorrectedWrittenLines(d, lines);
    NothingRewritten(d, lines);
    var out := KeptOutputLines(p.segments);
    forall i | 0 <= i < |lines| ensures out[i] == lines[i] {
      assert p.segments[i] == Untouched(lines[i]);
    }
    assert out == lines;
  }
}
