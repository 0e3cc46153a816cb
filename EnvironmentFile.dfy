/**
 * Reading `/etc/environment` the way both configurators do: each line is
 * matched against a chain of `startswith` prefixes (an `if … elif …` chain), the
 * first prefix that matches names the attribute to assign, and the value is
 * `line.split('=')[1].strip()`.
 */
module EnvironmentFile {
  import opened Wrappers
  import opened Strings

  /** One arm of the `elif` chain: a line prefix and the attribute it assigns. */
  datatype Arm = Arm(prefix: string, attribute: string)

  /** The state after reading lines, and the exception that stopped the loop, if any. */
  datatype ParseOutcome = ParseOutcome(state: map<string, string>, error: Option<Exception>)

  /** Index of the first arm whose prefix starts `line`; only that arm runs. */
  function FirstMatch(chain: seq<Arm>, line: string): (r: Option<nat>)
    ensures r.Some? ==> r.value < |chain| && chain[r.value].prefix <= line
    ensures r.Some? ==> forall i :: 0 <= i < r.value ==> !(chain[i].prefix <= line)
    ensures r.None? ==> forall i :: 0 <= i < |chain| ==> !(chain[i].prefix <= line)
  {
    if chain == [] then None
    else if chain[0].prefix <= line then Some(0)
    else match FirstMatch(chain[1..], line)
      case None => None
      case Some(j) => Some(j + 1)
  }

  /** `line.split('=')[1].strip()`: the text between the first and second `=`,
      trimmed; an IndexError when the line has no `=`. */
  function AssignedValue(line: string): (r: Result<string>)
    ensures r.Err? <==> '=' !in line
    ensures r.Err? ==> r.error == IndexError
  {
    var parts := Split(line, '=');
    if |parts| < 2 then Err(IndexError) else Ok(Strip(parts[1]))
  }

  /** `KEY=value` followed by whitespace yields the value, when neither side holds another `=`. */
  lemma AssignmentReadsBack(key: string, v: string, w: string)
    requires '=' !in key && '=' !in v && Trimmed(v) && AllSpace(w)
    ensures AssignedValue(key + "=" + v + w) == Ok(v)
  {
    assert '=' !in w by {
      assert forall i :: 0 <= i < |w| ==> IsSpace(w[i]);
    }
    assert key + "=" + v + w == key + ['='] + (v + w);
    SplitAt(key, '=', v + w);
    StripTrailingSpace(v, w);
  }

  /** `line` makes the chain assign attribute `x`. */
  predicate Assigns(chain: seq<Arm>, line: string, x: string) {
    var m := FirstMatch(chain, line);
    m.Some? && chain[m.value].attribute == x
  }

  /** One iteration of the parsing loop. */
  function Step(chain: seq<Arm>, state: map<string, string>, line: string): ParseOutcome {
    match FirstMatch(chain, line)
    case None => ParseOutcome(state, None)
    case Some(j) =>
      match AssignedValue(line)
      case Err(e) => ParseOutcome(state, Some(e))
      case Ok(v) => ParseOutcome(state[chain[j].attribute := v], None)
  }

  /** A line that matches arm `j` and holds the value `v` assigns `v` to that arm's attribute. */
  lemma StepMatched(chain: seq<Arm>, state: map<string, string>, line: string, j: nat, v: string)
    requires FirstMatch(chain, line) == Some(j) && AssignedValue(line) == Ok(v)
    ensures j < |chain| && Step(chain, state, line) == ParseOutcome(state[chain[j].attribute := v], None)
  {
  }

  /** The whole loop: lines are read in order; an exception ends it, leaving the
      assignments made so far in place. */
  function ParseLines(chain: seq<Arm>, state: map<string, string>, lines: seq<string>): ParseOutcome
    decreases |lines|
  {
    if lines == [] then ParseOutcome(state, None)
    else
      var previous := ParseLines(chain, state, lines[..|lines| - 1]);
      if previous.error.Some? then previous
      else Step(chain, previous.state, lines[|lines| - 1])
  }

  /** Reading one more line. */
  lemma ParseLinesSnoc(chain: seq<Arm>, state: map<string, string>, lines: seq<string>, line: string)
    ensures var previous := ParseLines(chain, state, lines);
      ParseLines(chain, state, lines + [line])
      == if previous.error.Some? then previous else Step(chain, previous.state, line)
  {
    assert (lines + [line])[..|lines|] == lines;
  }

  /** Reading a three-line file. */
  lemma ParseThree(chain: seq<Arm>, state: map<string, string>, a: string, b: string, c: string)
    ensures var r0 := Step(chain, state, a);
      var r1 := Step(chain, r0.state, b);
      ParseLines(chain, state, [a, b, c])
      == if r0.error.Some? then r0 else if r1.error.Some? then r1 else Step(chain, r1.state, c)
  {
    ParseLinesSnoc(chain, state, [], a);
    assert [] + [a] == [a];
    ParseLinesSnoc(chain, state, [a], b);
    assert [a] + [b] == [a, b];
    ParseLinesSnoc(chain, state, [a, b], c);
    assert [a, b] + [c] == [a, b, c];
  }

  /** The parsing loop as the source runs it. */
  method Parse(chain: seq<Arm>, state: map<string, string>, lines: seq<string>) returns (outcome: ParseOutcome)
    ensures outcome == ParseLines(chain, state, lines)
  {
    outcome := ParseOutcome(state, None);
    var i := 0;
    while i < |lines|
      invariant 0 <= i <= |lines|
      invariant outcome.error.None? && outcome == ParseLines(chain, state, lines[..i])
    {
      assert lines[..i + 1][..i] == lines[..i];
      assert ParseLines(chain, state, lines[..i + 1]) == Step(chain, outcome.state, lines[i]);
      outcome := Step(chain, outcome.state, lines[i]);
      if outcome.error.Some? {
        ParseStopsAtError(chain, state, lines, i + 1);
        return;
      }
      i := i + 1;
    }
    assert lines[..i] == lines;
  }

  /** Once a line has raised, the rest of the file is not looked at. */
  lemma {:induction false} ParseStopsAtError(chain: seq<Arm>, state: map<string, string>, lines: seq<string>, k: nat)
    requires k <= |lines| && ParseLines(chain, state, lines[..k]).error.Some?
    ensures ParseLines(chain, state, lines) == ParseLines(chain, state, lines[..k])
    decreases |lines| - k
  {
    if k < |lines| {
      assert lines[..k + 1][..k] == lines[..k];
      ParseStopsAtError(chain, state, lines, k + 1);
    } else {
      assert lines[..k] == lines;
    }
  }

  /** A line raises exactly when it matches an arm but has no `=`. */
  lemma StepError(chain: seq<Arm>, state: map<string, string>, line: string)
    ensures var r := Step(chain, state, line);
      (r.error.Some? <==> FirstMatch(chain, line).Some? && '=' !in line)
      && (r.error.Some? ==> r.error == Some(IndexError))
  {
  }

  /** A line that raises in the loop. */
  predicate Raises(chain: seq<Arm>, line: string) {
    FirstMatch(chain, line).Some? && '=' !in line
  }

  /** When the loop raises, it raises an IndexError, at a line that raises. */
  lemma {:induction false} ParseErrorAt(chain: seq<Arm>, state: map<string, string>, lines: seq<string>)
    requires ParseLines(chain, state, lines).error.Some?
    ensures ParseLines(chain, state, lines).error == Some(IndexError)
    ensures exists i :: 0 <= i < |lines| && Raises(chain, lines[i])
    decreases |lines|
  {
    var n := |lines| - 1;
    var init := lines[..n];
    ParseLinesLast(chain, state, lines);
    var previous := ParseLines(chain, state, init);
    if previous.error.Some? {
      ParseErrorAt(chain, state, init);
      var i :| 0 <= i < n && Raises(chain, init[i]);
      assert lines[i] == init[i];
    } else {
      StepError(chain, previous.state, lines[n]);
      assert Raises(chain, lines[n]);
    }
  }

  /** A line that raises makes the loop raise. */
  lemma {:induction false} ParseRaisesAt(chain: seq<Arm>, state: map<string, string>, lines: seq<string>, i: nat)
    requires i < |lines| && Raises(chain, lines[i])
    ensures ParseLines(chain, state, lines).error.Some?
    decreases |lines|
  {
    var n := |lines| - 1;
    var init := lines[..n];
    ParseLinesLast(chain, state, lines);
    var previous := ParseLines(chain, state, init);
    if i < n {
      assert init[i] == lines[i];
      ParseRaisesAt(chain, state, init, i);
    } else if previous.error.None? {
      StepError(chain, previous.state, lines[n]);
    }
  }

  /** The loop raises exactly when some line matches an arm but has no `=`,
      and the exception is then an IndexError. */
  lemma ParseErrorIff(chain: seq<Arm>, state: map<string, string>, lines: seq<string>)
    ensures var r := ParseLines(chain, state, lines);
      (r.error.Some? <==> exists i :: 0 <= i < |lines| && Raises(chain, lines[i]))
      && (r.error.Some? ==> r.error == Some(IndexError))
  {
    if ParseLines(chain, state, lines).error.Some? {
      ParseErrorAt(chain, state, lines);
    }
    if i :| 0 <= i < |lines| && Raises(chain, lines[i]) {
      ParseRaisesAt(chain, state, lines, i);
    }
  }

  /** The loop as the reading of all lines but the last, then the last. */
  lemma ParseLinesLast(chain: seq<Arm>, state: map<string, string>, lines: seq<string>)
    requires lines != []
    ensures var previous := ParseLines(chain, state, lines[..|lines| - 1]);
      ParseLines(chain, state, lines)
      == if previous.error.Some? then previous else Step(chain, previous.state, lines[|lines| - 1])
  {
  }

  /** A line that assigns `x` and raises nothing stores its value under `x`. */
  lemma StepAssigns(chain: seq<Arm>, state: map<string, string>, line: string, x: string)
    requires Assigns(chain, line, x) && Step(chain, state, line).error.None?
    ensures var r := Step(chain, state, line).state;
      x in r && Ok(r[x]) == AssignedValue(line)
  {
  }

  /** A line that does not assign `x` leaves it as it was. */
  lemma StepKeeps(chain: seq<Arm>, state: map<string, string>, line: string, x: string)
    requires !Assigns(chain, line, x)
    ensures var r := Step(chain, state, line).state;
      (x in r <==> x in state) && (x in state ==> r[x] == state[x])
  {
  }

  /** A parse that raised nothing leaves an attribute at the value of the last
      line that assigns it. */
  lemma {:induction false} ParseLastAssignment(chain: seq<Arm>, state: map<string, string>, lines: seq<string>, x: string, i: nat)
    requires ParseLines(chain, state, lines).error.None?
    requires i < |lines| && Assigns(chain, lines[i], x)
    requires forall j :: i < j < |lines| ==> !Assigns(chain, lines[j], x)
    ensures var r := ParseLines(chain, state, lines).state;
      x in r && Ok(r[x]) == AssignedValue(lines[i])
    decreases |lines|
  {
    var n := |lines| - 1;
    var init := lines[..n];
    ParseLinesLast(chain, state, lines);
    var previous := ParseLines(chain, state, init);
    assert previous.error.None?;
    if i < n {
      assert forall j :: i < j < n ==> init[j] == lines[j];
      assert init[i] == lines[i];
      ParseLastAssignment(chain, state, init, x, i);
      StepKeeps(chain, previous.state, lines[n], x);
    } else {
      StepAssigns(chain, previous.state, lines[n], x);
    }
  }

  /** A parse that raised nothing leaves an attribute no line assigns as it was. */
  lemma {:induction false} ParseUnassigned(chain: seq<Arm>, state: map<string, string>, lines: seq<string>, x: string)
    requires ParseLines(chain, state, lines).error.None?
    requires forall i :: 0 <= i < |lines| ==> !Assigns(chain, lines[i], x)
    ensures var r := ParseLines(chain, state, lines).state;
      (x in r <==> x in state) && (x in state ==> r[x] == state[x])
    decreases |lines|
  {
    if lines != [] {
      var n := |lines| - 1;
      var init := lines[..n];
      ParseLinesLast(chain, state, lines);
      assert forall i :: 0 <= i < n ==> init[i] == lines[i];
      ParseUnassigned(chain, state, init, x);
      StepKeeps(chain, ParseLines(chain, state, init).state, lines[n], x);
    }
  }

  /** Parsing only assigns attributes named in the chain. */
  lemma {:induction false} ParseKeys(chain: seq<Arm>, state: map<string, string>, lines: seq<string>)
    ensures var r := ParseLines(chain, state, lines).state;
      state.Keys <= r.Keys && forall x :: x in r && x !in state ==> exists j :: 0 <= j < |chain| && chain[j].attribute == x
    decreases |lines|
  {
    if lines != [] {
      ParseKeys(chain, state, lines[..|lines| - 1]);
    }
  }

  /** Lines that match no arm assign nothing and raise nothing. */
  lemma {:induction false} ParseNoMatch(chain: seq<Arm>, state: map<string, string>, lines: seq<string>)
    requires forall i :: 0 <= i < |lines| ==> FirstMatch(chain, lines[i]).None?
    ensures ParseLines(chain, state, lines) == ParseOutcome(state, None)
    decreases |lines|
  {
    if lines != [] {
      var n := |lines| - 1;
      assert forall i :: 0 <= i < n ==> lines[..n][i] == lines[i];
      ParseNoMatch(chain, state, lines[..n]);
    }
  }

  /** Lines that match no arm, read before others, make no difference. */
  lemma {:induction false} ParseAfterNoMatch(chain: seq<Arm>, state: map<string, string>, quiet: seq<string>, lines: seq<string>)
    requires forall i :: 0 <= i < |quiet| ==> FirstMatch(chain, quiet[i]).None?
    ensures ParseLines(chain, state, quiet + lines) == ParseLines(chain, state, lines)
    decreases |lines|
  {
    if lines == [] {
      assert quiet + lines == quiet;
      ParseNoMatch(chain, state, quiet);
    } else {
      var n := |lines| - 1;
      ParseAfterNoMatch(chain, state, quiet, lines[..n]);
      assert (quiet + lines)[..|quiet + lines| - 1] == quiet + lines[..n];
      ParseLinesLast(chain, state, quiet + lines);
    }
  }
}
