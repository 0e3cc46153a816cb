/**
 * The Python string operations the configuration code relies on, written out
 * over `seq<char>`: `strip()`, `split(c)`, `c in s`, `replace(p, '')`,
 * `upper()`, `str(int)`, `int(str)`, `os.path.join` and `readlines()`.
 */
module Strings {
  import opened Wrappers

  // ---------------------------------------------------------------------------
  // Whitespace and strip()

  /** The characters Python's argument-less `strip()` removes from an ASCII string. */
  predicate IsSpace(c: char) {
    c == ' ' || ('\t' <= c <= '\r')
  }

  predicate AllSpace(s: string) {
    forall i :: 0 <= i < |s| ==> IsSpace(s[i])
  }

  /** Neither end of `s` is whitespace, so `strip()` leaves it unchanged. */
  predicate Trimmed(s: string) {
    s == [] || (!IsSpace(s[0]) && !IsSpace(s[|s| - 1]))
  }

  /** Python's `s.lstrip()`. */
  function LStrip(s: string): string {
    if s != [] && IsSpace(s[0]) then LStrip(s[1..]) else s
  }

  /** `lstrip()` drops a run of whitespace from the front and stops at a non-space. */
  lemma {:induction false} LStripShape(s: string)
    ensures var r := LStrip(s);
      (r == [] || !IsSpace(r[0])) && |r| <= |s| && r == s[|s| - |r|..] && AllSpace(s[..|s| - |r|])
  {
    if s != [] && IsSpace(s[0]) {
      LStripShape(s[1..]);
      var r := LStrip(s[1..]);
      assert s[1..][..|s| - 1 - |r|] == s[1..|s| - |r|];
      assert s[1..][|s| - 1 - |r|..] == s[|s| - |r|..];
    }
  }

  /** Python's `s.rstrip()`. */
  function RStrip(s: string): string {
    if s != [] && IsSpace(s[|s| - 1]) then RStrip(s[..|s| - 1]) else s
  }

  /** `rstrip()` drops a run of whitespace from the back and stops at a non-space. */
  lemma {:induction false} RStripShape(s: string)
    ensures var r := RStrip(s);
      (r == [] || !IsSpace(r[|r| - 1])) && |r| <= |s| && r == s[..|r|] && AllSpace(s[|r|..])
  {
    if s != [] && IsSpace(s[|s| - 1]) {
      RStripShape(s[..|s| - 1]);
      var r := RStrip(s[..|s| - 1]);
      assert s[..|s| - 1][|r|..] + [s[|s| - 1]] == s[|r|..];
      assert s[..|s| - 1][..|r|] == s[..|r|];
    }
  }

  /** Python's `s.strip()`: drop leading and trailing whitespace. */
  function Strip(s: string): (r: string)
    ensures Trimmed(r)
  {
    LStripShape(s);
    RStripShape(LStrip(s));
    var r := RStrip(LStrip(s));
    assert r != [] ==> r[0] == LStrip(s)[0];
    r
  }

  lemma {:induction false} LStripSpacePrefix(w: string, s: string)
    requires AllSpace(w)
    ensures LStrip(w + s) == LStrip(s)
  {
    if w != [] {
      assert IsSpace((w + s)[0]);
      assert (w + s)[1..] == w[1..] + s;
      LStripSpacePrefix(w[1..], s);
    } else {
      assert w + s == s;
    }
  }

  lemma {:induction false} RStripSpaceSuffix(s: string, w: string)
    requires AllSpace(w)
    ensures RStrip(s + w) == RStrip(s)
  {
    if w != [] {
      assert IsSpace((s + w)[|s + w| - 1]);
      assert (s + w)[..|s + w| - 1] == s + w[..|w| - 1];
      RStripSpaceSuffix(s, w[..|w| - 1]);
    } else {
      assert s + w == s;
    }
  }

  lemma StripTrimmed(s: string)
    requires Trimmed(s)
    ensures Strip(s) == s
  {
  }

  /** Stripping `s + w` where `s` is trimmed and `w` is whitespace gives back `s`. */
  lemma StripTrailingSpace(s: string, w: string)
    requires Trimmed(s) && AllSpace(w)
    ensures Strip(s + w) == s
  {
    if s == [] {
      assert s + w == w + [];
      LStripSpacePrefix(w, []);
      assert Strip(s + w) == RStrip([]);
    } else {
      assert (s + w)[0] == s[0];
      assert LStrip(s + w) == s + w;
      RStripSpaceSuffix(s, w);
    }
  }

  // ---------------------------------------------------------------------------
  // Counting and splitting on one character

  function Count(s: string, c: char): (n: nat)
    ensures n == 0 <==> c !in s
    ensures n <= |s|
  {
    if s == [] then 0 else (if s[0] == c then 1 else 0) + Count(s[1..], c)
  }

  lemma {:induction false} CountAppend(a: string, b: string, c: char)
    ensures Count(a + b, c) == Count(a, c) + Count(b, c)
  {
    if a != [] {
      assert (a + b)[0] == a[0] && (a + b)[1..] == a[1..] + b;
      CountAppend(a[1..], b, c);
    } else {
      assert a + b == b;
    }
  }

  lemma {:induction false} CountAllSpace(w: string, c: char)
    requires AllSpace(w) && !IsSpace(c)
    ensures Count(w, c) == 0
  {
    if w != [] {
      assert IsSpace(w[0]);
      CountAllSpace(w[1..], c);
    }
  }

  lemma {:induction false} LStripCount(s: string, c: char)
    requires !IsSpace(c)
    ensures Count(LStrip(s), c) == Count(s, c)
  {
    if s != [] && IsSpace(s[0]) {
      LStripCount(s[1..], c);
    }
  }

  lemma {:induction false} RStripCount(s: string, c: char)
    requires !IsSpace(c)
    ensures Count(RStrip(s), c) == Count(s, c)
  {
    if s != [] && IsSpace(s[|s| - 1]) {
      var t := s[..|s| - 1];
      assert s == t + [s[|s| - 1]];
      CountAppend(t, [s[|s| - 1]], c);
      RStripCount(t, c);
    }
  }

  /** `strip()` removes only whitespace, so it keeps every non-space character. */
  lemma StripCount(s: string, c: char)
    requires !IsSpace(c)
    ensures Count(Strip(s), c) == Count(s, c)
  {
    LStripCount(s, c);
    RStripCount(LStrip(s), c);
  }

  /** Index of the first `c` in `s`. */
  function IndexOf(s: string, c: char): (i: nat)
    requires c in s
    ensures i < |s| && s[i] == c && c !in s[..i]
  {
    if s[0] == c then 0 else 1 + IndexOf(s[1..], c)
  }

  /** Python's `s.split(c)` for a one-character separator. */
  function Split(s: string, c: char): (parts: seq<string>)
    ensures |parts| == Count(s, c) + 1
    ensures forall i :: 0 <= i < |parts| ==> c !in parts[i]
    decreases |s|
  {
    if c !in s then [s]
    else
      var i := IndexOf(s, c);
      assert s == s[..i] + [c] + s[i + 1..];
      CountAppend(s[..i] + [c], s[i + 1..], c);
      CountAppend(s[..i], [c], c);
      [s[..i]] + Split(s[i + 1..], c)
  }

  /** The part of `s` before its first `c` is the first field of the split. */
  lemma SplitAt(a: string, c: char, b: string)
    requires c !in a
    ensures Split(a + [c] + b, c) == [a] + Split(b, c)
  {
    var s := a + [c] + b;
    var i := IndexOf(s, c);
    assert s[|a|] == c;
    assert i == |a|;
    assert s[..i] == a && s[i + 1..] == b;
  }

  // ---------------------------------------------------------------------------
  // Substrings and replace(p, '')

  /** Python's `p in s` for a string `p`. */
  predicate Contains(s: string, p: string)
    decreases |s|
  {
    p <= s || (s != [] && Contains(s[1..], p))
  }

  lemma {:induction false} ContainsAppend(s: string, t: string, p: string)
    requires Contains(s, p)
    ensures Contains(s + t, p)
  {
    if p <= s {
      assert p <= s + t;
    } else {
      assert (s + t)[1..] == s[1..] + t;
      ContainsAppend(s[1..], t, p);
    }
  }

  lemma {:induction false} ContainsInfix(a: string, p: string, b: string)
    ensures Contains(a + p + b, p)
  {
    if a == [] {
      assert a + p + b == p + b;
    } else {
      assert (a + p + b)[1..] == a[1..] + p + b;
      ContainsInfix(a[1..], p, b);
    }
  }

  /** A pattern whose first character does not occur in `s` is not contained in it. */
  lemma {:induction false} ContainsNeedsHead(s: string, p: string)
    requires p != [] && p[0] !in s
    ensures !Contains(s, p)
  {
    if s != [] {
      assert s[0] != p[0];
      ContainsNeedsHead(s[1..], p);
    }
  }

  /** A pattern holding a character `s` lacks is not contained in `s`. */
  lemma {:induction false} ContainsNeedsChar(s: string, p: string, c: char)
    requires c in p && c !in s
    ensures !Contains(s, p)
  {
    if s != [] {
      ContainsNeedsChar(s[1..], p, c);
    }
  }

  /** Adding a character the pattern lacks does not create an occurrence. */
  lemma {:induction false} ContainsDropLast(s: string, c: char, p: string)
    requires c !in p && Contains(s + [c], p)
    ensures Contains(s, p)
  {
    if p <= s + [c] {
      assert |p| > |s| ==> p == s + [c];
      assert p == s[..|p|];
    } else {
      assert s != [];
      assert (s + [c])[1..] == s[1..] + [c];
      ContainsDropLast(s[1..], c, p);
    }
  }

  /** Python's `s.replace(p, '')`: delete the occurrences of `p` found scanning left to right. */
  function RemoveAll(s: string, p: string): (r: string)
    requires p != []
    ensures |r| <= |s|
    decreases |s|
  {
    if s == [] then []
    else if p <= s then RemoveAll(s[|p|..], p)
    else [s[0]] + RemoveAll(s[1..], p)
  }

  lemma {:induction false} RemoveAllAbsent(s: string, p: string)
    requires p != [] && p[0] !in s
    ensures RemoveAll(s, p) == s
  {
    if s != [] {
      assert s[0] != p[0];
      RemoveAllAbsent(s[1..], p);
    }
  }

  /** Removing a pattern that does not occur leaves the string as it was. */
  lemma {:induction false} RemoveAllNotContained(s: string, p: string)
    requires p != [] && !Contains(s, p)
    ensures RemoveAll(s, p) == s
  {
    if s != [] {
      RemoveAllNotContained(s[1..], p);
    }
  }

  /** Python's `s.replace(c, '')` for one character. */
  function RemoveChar(s: string, c: char): (r: string)
    ensures c !in r
    ensures c !in s ==> r == s
    ensures forall x :: x in r ==> x in s
  {
    if s == [] then []
    else if s[0] == c then RemoveChar(s[1..], c)
    else [s[0]] + RemoveChar(s[1..], c)
  }

  // ---------------------------------------------------------------------------
  // upper()

  function UpperChar(c: char): char {
    if 'a' <= c <= 'z' then (c as int - 32) as char else c
  }

  /** Python's `s.upper()` on ASCII text. */
  function Upper(s: string): (r: string)
    ensures |r| == |s| && forall i :: 0 <= i < |s| ==> r[i] == UpperChar(s[i])
  {
    seq(|s|, i requires 0 <= i < |s| => UpperChar(s[i]))
  }

  // ---------------------------------------------------------------------------
  // str(int) and int(str)

  predicate IsDigit(c: char) {
    '0' <= c <= '9'
  }

  predicate AllDigits(s: string) {
    forall i :: 0 <= i < |s| ==> IsDigit(s[i])
  }

  function DigitChar(d: nat): (c: char)
    requires d < 10
    ensures IsDigit(c)
  {
    ('0' as int + d) as char
  }

  /** The decimal digits of `n`, most significant first, with no leading zero. */
  function NatToString(n: nat): (s: string)
    ensures s != [] && AllDigits(s)
  {
    if n < 10 then [DigitChar(n)] else NatToString(n / 10) + [DigitChar(n % 10)]
  }

  /** Python's `str(n)` for an int. */
  function IntToString(n: int): (s: string)
    ensures s != [] && !IsSpace(s[0]) && IsDigit(s[|s| - 1])
    ensures forall i :: 0 <= i < |s| ==> IsDigit(s[i]) || s[i] == '-'
  {
    if n < 0 then "-" + NatToString(-n) else NatToString(n)
  }

  function DigitValue(c: char): (d: nat)
    requires IsDigit(c)
    ensures d < 10
  {
    c as int - '0' as int
  }

  /** The number a run of decimal digits denotes. */
  function DigitsValue(s: string): nat
    requires AllDigits(s)
  {
    if s == [] then 0 else DigitsValue(s[..|s| - 1]) * 10 + DigitValue(s[|s| - 1])
  }

  /** A run of one or more decimal digits, read as a number. */
  function ParseDigitRun(d: string): Option<nat> {
    if d != [] && AllDigits(d) then Some(DigitsValue(d)) else None
  }

  function Negated(o: Option<nat>): Option<int> {
    match o
    case Some(v) => Some(-(v as int))
    case None => None
  }

  /** Python's `int(s)` on a string: surrounding whitespace, an optional sign and at
      least one decimal digit; anything else is a ValueError (None here). */
  function ParseInt(s: string): Option<int> {
    ParseNumber(Strip(s))
  }

  /** An optional sign followed by a digit run. */
  function ParseNumber(t: string): Option<int> {
    if t != [] && t[0] == '-' then
      Negated(ParseDigitRun(t[1..]))
    else if t != [] && t[0] == '+' then
      (match ParseDigitRun(t[1..]) case Some(v) => Some(v) case None => None)
    else
      (match ParseDigitRun(t) case Some(v) => Some(v) case None => None)
  }

  lemma {:induction false} NatToStringValue(n: nat)
    ensures DigitsValue(NatToString(n)) == n
  {
    var s := NatToString(n);
    if n >= 10 {
      assert s[..|s| - 1] == NatToString(n / 10);
      NatToStringValue(n / 10);
    }
  }

  lemma ParseDigits(s: string)
    requires s != [] && AllDigits(s)
    ensures ParseNumber(s) == Some(DigitsValue(s))
  {
    assert IsDigit(s[0]);
  }

  /** `int()` reads back the digits `str()` writes for a natural number. */
  lemma ParseNatToString(n: nat)
    ensures ParseInt(NatToString(n)) == Some(n)
  {
    var s := NatToString(n);
    StripTrimmed(s);
    NatToStringValue(n);
    ParseDigits(s);
  }

  /** `int()` reads back `str(n)` for a negative `n`. */
  lemma ParseNegativeToString(n: int)
    requires n < 0
    ensures ParseInt(IntToString(n)) == Some(n)
  {
    var d := NatToString(-n);
    var s := "-" + d;
    assert IntToString(n) == s;
    StripTrimmed(s);
    assert s[0] == '-' && s[1..] == d;
    NatToStringValue(-n);
    assert ParseDigitRun(d) == Some(-n);
    assert ParseNumber(s) == Negated(ParseDigitRun(d));
  }

  /** `int(str(n) + w)` gives back `n` for trailing whitespace `w`, such as the
      newline `echo` writes after a number. */
  lemma IntToStringRoundTrip(n: int, w: string)
    requires AllSpace(w)
    ensures ParseInt(IntToString(n) + w) == Some(n)
  {
    var s := IntToString(n);
    StripTrailingSpace(s, w);
    assert Strip(s + w) == Strip(s) by { StripTrimmed(s); }
    if n < 0 {
      ParseNegativeToString(n);
    } else {
      ParseNatToString(n);
    }
  }

  // ---------------------------------------------------------------------------
  // Paths

  /** Python's `os.path.join(a, b)` for two path components. */
  function PathJoin(a: string, b: string): (r: string)
    ensures |b| <= |r| && r[|r| - |b|..] == b
  {
    if "/" <= b then b
    else if a == [] || a[|a| - 1] == '/' then a + b
    else a + "/" + b
  }

  /** Joining a relative name onto a directory adds a separator only when the
      directory does not already end with one. */
  lemma PathJoinRelative(a: string, b: string)
    requires b != [] && b[0] != '/'
    ensures a == [] || a[|a| - 1] == '/' ==> PathJoin(a, b) == a + b
    ensures a != [] && a[|a| - 1] != '/' ==> PathJoin(a, b) == a + "/" + b
  {
    assert !("/" <= b);
  }

  // ---------------------------------------------------------------------------
  // Whole files: concatenation and readlines()

  function Concat(ss: seq<string>): string {
    if ss == [] then [] else ss[0] + Concat(ss[1..])
  }

  lemma ConcatThree(a: string, b: string, c: string)
    ensures Concat([a, b, c]) == a + b + c
  {
    var ss := [a, b, c];
    assert ss[1..] == [b, c] && ss[1..][1..] == [c] && ss[1..][1..][1..] == [];
    assert Concat([c]) == c + Concat([]);
    assert Concat([b, c]) == b + Concat([c]);
    assert Concat(ss) == a + Concat([b, c]);
  }

  lemma {:induction false} ConcatAppend(a: seq<string>, b: seq<string>)
    ensures Concat(a + b) == Concat(a) + Concat(b)
  {
    if a != [] {
      assert (a + b)[0] == a[0] && (a + b)[1..] == a[1..] + b;
      ConcatAppend(a[1..], b);
      assert Concat(a + b) == a[0] + (Concat(a[1..]) + Concat(b));
    } else {
      assert a + b == b;
    }
  }

  /** A line as `readlines()` returns it from the middle of a file. */
  predicate IsLine(l: string) {
    l != [] && l[|l| - 1] == '\n' && '\n' !in l[..|l| - 1]
  }

  /** A sequence `readlines()` can return: every line but the last ends with its
      newline, and no line holds a newline anywhere else. */
  predicate IsReadLines(ls: seq<string>) {
    forall i :: 0 <= i < |ls| ==>
      ls[i] != [] && '\n' !in ls[i][..|ls[i]| - 1] && (i < |ls| - 1 ==> ls[i][|ls[i]| - 1] == '\n')
  }

  /** Dropping the last line, or keeping only it, leaves what `readlines()` can return. */
  lemma ReadLinesLast(ls: seq<string>)
    requires ls != [] && IsReadLines(ls)
    ensures IsReadLines(ls[..|ls| - 1]) && IsReadLines([ls[|ls| - 1]])
  {
    var n := |ls| - 1;
    assert forall k :: 0 <= k < n ==> ls[..n][k] == ls[k];
    assert [ls[n]][0] == ls[n];
  }

  /** Python's `readlines()` on a file whose contents are `s`. */
  function SplitLines(s: string): (ls: seq<string>)
    decreases |s|
  {
    if s == [] then []
    else if '\n' !in s then [s]
    else
      var i := IndexOf(s, '\n');
      [s[..i + 1]] + SplitLines(s[i + 1..])
  }

  lemma SplitLinesLine(l: string, s: string)
    requires IsLine(l)
    ensures SplitLines(l + s) == [l] + SplitLines(s)
  {
    var t := l + s;
    var i := IndexOf(t, '\n');
    assert t[|l| - 1] == '\n';
    assert i == |l| - 1;
    assert t[..i + 1] == l && t[i + 1..] == s;
  }

  lemma ConcatCons(a: seq<string>, s: string)
    requires a != []
    ensures Concat(a) + s == a[0] + (Concat(a[1..]) + s)
  {
  }

  lemma SplitLinesCons(l: string, t: string, tailLines: seq<string>)
    requires IsLine(l) && SplitLines(t) == tailLines
    ensures SplitLines(l + t) == [l] + tailLines
  {
    SplitLinesLine(l, t);
  }

  lemma SeqCons<T>(a: seq<T>, x: seq<T>)
    requires a != []
    ensures [a[0]] + (a[1..] + x) == a + x
  {
    assert a == [a[0]] + a[1..];
  }

  lemma LinesTail(a: seq<string>)
    requires a != [] && forall i :: 0 <= i < |a| ==> IsLine(a[i])
    ensures IsLine(a[0]) && forall i :: 0 <= i < |a[1..]| ==> IsLine(a[1..][i])
  {
    assert forall i :: 0 <= i < |a[1..]| ==> a[1..][i] == a[i + 1];
  }

  /** One step of the induction below: a whole line in front of lines already read back. */
  lemma SplitLinesAppendStep(a: seq<string>, s: string)
    requires a != [] && IsLine(a[0])
    requires SplitLines(Concat(a[1..]) + s) == a[1..] + SplitLines(s)
    ensures SplitLines(Concat(a) + s) == a + SplitLines(s)
  {
    SplitLinesCons(a[0], Concat(a[1..]) + s, a[1..] + SplitLines(s));
    ConcatCons(a, s);
    SeqCons(a, SplitLines(s));
  }

  lemma {:induction false} SplitLinesAppend(a: seq<string>, s: string)
    requires forall i :: 0 <= i < |a| ==> IsLine(a[i])
    ensures SplitLines(Concat(a) + s) == a + SplitLines(s)
  {
    if a == [] {
      assert Concat(a) + s == s;
    } else {
      LinesTail(a);
      SplitLinesAppend(a[1..], s);
      SplitLinesAppendStep(a, s);
    }
  }

  /** Reading back a file written as a sequence of whole lines gives those lines. */
  lemma SplitLinesConcat(a: seq<string>)
    requires forall i :: 0 <= i < |a| ==> IsLine(a[i])
    ensures SplitLines(Concat(a)) == a
  {
    SplitLinesAppend(a, []);
    assert Concat(a) + [] == Concat(a);
  }

  /** A last line that has no newline is read back whole. */
  lemma SplitLinesLast(l: string)
    requires l != [] && '\n' !in l
    ensures SplitLines(l) == [l]
  {
  }

  /** A whole line in front of what `readlines()` can return. */
  lemma ReadLinesCons(first: string, rest: seq<string>)
    requires IsLine(first) && IsReadLines(rest)
    ensures IsReadLines([first] + rest)
  {
    var ls := [first] + rest;
    assert ls[0] == first;
    assert forall k :: 0 < k < |ls| ==> ls[k] == rest[k - 1];
  }

  /** Whatever a file holds, `readlines()` returns lines in the shape `IsReadLines` describes. */
  lemma {:induction false} SplitLinesAreReadLines(s: string)
    ensures IsReadLines(SplitLines(s))
    decreases |s|
  {
    if s != [] && '\n' in s {
      var i := IndexOf(s, '\n');
      SplitLinesAreReadLines(s[i + 1..]);
      var first := s[..i + 1];
      assert first[..|first| - 1] == s[..i];
      ReadLinesCons(first, SplitLines(s[i + 1..]));
    } else if s != [] {
      assert [s][0] == s;
    }
  }
}
