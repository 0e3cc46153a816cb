/**
 * Reading back what the writer wrote, for any chain of arms. A file none of
 * whose lines any arm reads stays unread after the rewriting loop, provided
 * no arm reads any `KEY=value` line the loop puts in place of an old one; the
 * `KEY=value` lines appended after it are then the only ones the parser acts on.
 */
module RoundTrip {
  import opened Wrappers
  import opened Strings
  import opened EnvironmentFile
  import opened EnvironmentWriter
  import LogstashConfig

  /** Every arm's prefix is non-empty and holds no line break. */
  predicate Breakless(chain: seq<Arm>) {
    forall i :: 0 <= i < |chain| ==> chain[i].prefix != [] && '\n' !in chain[i].prefix
  }

  /** Lines that match no arm of the chain. */
  predicate Quiet(chain: seq<Arm>, ls: seq<string>) {
    forall i :: 0 <= i < |ls| ==> FirstMatch(chain, ls[i]).None?
  }

  /** An untouched line that matches no arm still matches none once written back,
      and neither does the empty line that may follow it. */
  lemma UntouchedQuiet(chain: seq<Arm>, l: string)
    requires Breakless(chain) && l != [] && '\n' !in l[..|l| - 1] && FirstMatch(chain, l).None?
    ensures Quiet(chain, SegmentLines(Untouched(l)))
  {
  }

  lemma QuietAppend(chain: seq<Arm>, a: seq<string>, b: seq<string>)
    requires Quiet(chain, a) && Quiet(chain, b)
    ensures Quiet(chain, a + b)
  {
    assert forall i :: |a| <= i < |a + b| ==> (a + b)[i] == b[i - |a|];
  }

  lemma {:induction false} OutputQuiet(chain: seq<Arm>, segments: seq<Segment>)
    requires forall i :: 0 <= i < |segments| ==> Quiet(chain, SegmentLines(segments[i]))
    ensures Quiet(chain, OutputLines(segments))
    decreases |segments|
  {
    if segments != [] {
      var n := |segments| - 1;
      OutputQuiet(chain, segments[..n]);
      QuietAppend(chain, OutputLines(segments[..n]), SegmentLines(segments[n]));
    }
  }

  /** No arm reads the `KEY=value` line the loop would put in place of `line`. */
  predicate RewriteQuiet(chain: seq<Arm>, d: Dict, line: string) {
    '=' in line && KeyOf(line) in d.values
    ==> FirstMatch(chain, LogstashConfig.Assignment(KeyOf(line), d.values[KeyOf(line)])).None?
  }

  /** The loop over a file no arm reads writes lines no arm reads, when no line
      it puts in place of an old one is read either. */
  lemma RewrittenQuiet(chain: seq<Arm>, d: Dict, lines: seq<string>)
    requires Breakless(chain) && WellFormed(d) && IsReadLines(lines) && Quiet(chain, lines)
    requires forall i :: 0 <= i < |lines| ==> RewriteQuiet(chain, d, lines[i])
    ensures Quiet(chain, OutputLines(Upsert(d, lines).segments))
  {
    var p := Upsert(d, lines);
    UpsertSpec(d, lines);
    forall i | 0 <= i < |p.segments|
      ensures Quiet(chain, SegmentLines(p.segments[i]))
    {
      if p.segments[i].Untouched? {
        UntouchedQuiet(chain, lines[i]);
      }
    }
    OutputQuiet(chain, p.segments);
  }

  /** A key that is some arm's prefix is in no line of a file no arm reads, so the
      loop leaves it pending with its value. */
  lemma PrefixPending(chain: seq<Arm>, d: Dict, lines: seq<string>, j: nat)
    requires WellFormed(d) && Quiet(chain, lines) && j < |chain| && chain[j].prefix in d.values
    ensures var p := Upsert(d, lines);
      chain[j].prefix in p.pending.values && p.pending.values[chain[j].prefix] == d.values[chain[j].prefix]
  {
    UpsertSpec(d, lines);
  }

  /** No appended `KEY=value` line raises. */
  lemma AppendedNoError(chain: seq<Arm>, state: map<string, string>, p: Dict)
    requires WellFormed(p)
    ensures ParseLines(chain, state, AssignmentLines(p.keys, p.values)).error.None?
  {
    var a := AssignmentLines(p.keys, p.values);
    ParseErrorIff(chain, state, a);
    forall t | 0 <= t < |a|
      ensures !Raises(chain, a[t])
    {
      assert a[t][|p.keys[t]|] == '=';
    }
  }

  /** When exactly one appended line assigns `x`, reading the appended lines gives
      `x` that line's value. */
  lemma AppendedLast(chain: seq<Arm>, state: map<string, string>, p: Dict, x: string, key: string, v: string)
    requires WellFormed(p) && key in p.values
    requires forall k :: k in p.values ==> (Assigns(chain, LogstashConfig.Assignment(k, p.values[k]), x) <==> k == key)
    requires AssignedValue(LogstashConfig.Assignment(key, p.values[key])) == Ok(v)
    ensures var r := ParseLines(chain, state, AssignmentLines(p.keys, p.values));
      r.error.None? && x in r.state && r.state[x] == v
  {
    var a := AssignmentLines(p.keys, p.values);
    AppendedNoError(chain, state, p);
    var t :| 0 <= t < |p.keys| && p.keys[t] == key;
    assert forall u :: t < u < |a| ==> p.keys[u] != key;
    ParseLastAssignment(chain, state, a, x, t);
  }

  /** When no appended line assigns `x`, reading them leaves `x` as it was. */
  lemma AppendedNone(chain: seq<Arm>, state: map<string, string>, p: Dict, x: string)
    requires WellFormed(p)
    requires forall k :: k in p.values ==> !Assigns(chain, LogstashConfig.Assignment(k, p.values[k]), x)
    ensures var r := ParseLines(chain, state, AssignmentLines(p.keys, p.values));
      r.error.None? && (x in r.state <==> x in state) && (x in state ==> r.state[x] == state[x])
  {
    AppendedNoError(chain, state, p);
    ParseUnassigned(chain, state, AssignmentLines(p.keys, p.values), x);
  }
}
