// The conformance harness of tools/xtest.test.ts, without the process
// and file-system plumbing: how a test file's annotations are read, how
// the interpreter's captured streams become line lists, which results
// pass, and which files of the test tree are run.
module Xtest {
  import opened Wrappers

  // ---------------------------------------------------------------------
  // Strings as JavaScript sees them.

  /** The characters `.` in a regular expression does not match. */
  predicate IsLineTerminator(c: char)
  {
    c == '\n' || c == '\r' || c as int == 0x2028 || c as int == 0x2029
  }

  /** The characters String.prototype.trim removes: white space and line
      terminators. */
  predicate IsJsSpace(c: char)
  {
    || c == ' ' || c == '\t' || c as int == 0x0B || c as int == 0x0C
    || c as int == 0xA0 || c as int == 0x1680 || 0x2000 <= c as int <= 0x200A
    || c as int == 0x202F || c as int == 0x205F || c as int == 0x3000 || c as int == 0xFEFF
    || IsLineTerminator(c)
  }

  /** s.split("\n"): the pieces between the newlines, always at least one. */
  function Split(s: string): (r: seq<string>)
    ensures |r| >= 1
    decreases |s|
  {
    if |s| == 0 then [""]
    else if s[0] == '\n' then [""] + Split(s[1..])
    else var rest := Split(s[1..]); [[s[0]] + rest[0]] + rest[1..]
  }

  /** Lines glued back together with newlines. */
  function Join(lines: seq<string>): string
  {
    if |lines| == 0 then ""
    else if |lines| == 1 then lines[0]
    else lines[0] + "\n" + Join(lines[1..])
  }

  predicate NoNewline(s: string)
  {
    forall i :: 0 <= i < |s| ==> s[i] != '\n'
  }

  /** Splitting undoes joining. */
  lemma {:induction false} SplitJoin(s: string)
    ensures Join(Split(s)) == s
    decreases |s|
  {
    if |s| > 0 {
      SplitJoin(s[1..]);
      var rest := Split(s[1..]);
      if s[0] == '\n' {
        assert Split(s) == [""] + rest;
        assert ([""] + rest)[1..] == rest;
      } else {
        JoinFirstLonger(s[0], rest);
      }
      assert s == [s[0]] + s[1..];
    }
  }

  /** A character put in front of the first line is in front of the text. */
  lemma JoinFirstLonger(c: char, rest: seq<string>)
    requires |rest| >= 1
    ensures Join([[c] + rest[0]] + rest[1..]) == [c] + Join(rest)
  {
    var r := [[c] + rest[0]] + rest[1..];
    if |rest| > 1 {
      assert r[1..] == rest[1..];
    }
  }

  /** Each piece of a split is newline-free. */
  lemma {:induction false} SplitPiecesNoNewline(s: string)
    ensures forall k :: 0 <= k < |Split(s)| ==> NoNewline(Split(s)[k])
    decreases |s|
  {
    if |s| > 0 {
      SplitPiecesNoNewline(s[1..]);
      var rest := Split(s[1..]);
      var r := Split(s);
      if s[0] == '\n' {
        assert r == [""] + rest;
      } else {
        assert r == [[s[0]] + rest[0]] + rest[1..];
        forall k | 0 <= k < |r|
          ensures NoNewline(r[k])
        {
          if k > 0 {
            assert r[k] == rest[k];
          } else {
            assert forall i :: 0 < i < |r[0]| ==> r[0][i] == rest[0][i - 1];
          }
        }
      }
    }
  }

  /** Joining undoes splitting, for lines with no newline in them. */
  lemma {:induction false} JoinSplit(lines: seq<string>)
    requires |lines| >= 1
    requires forall k :: 0 <= k < |lines| ==> NoNewline(lines[k])
    ensures Split(Join(lines)) == lines
    decreases |lines|
  {
    if |lines| == 1 {
      SplitNoNewline(lines[0]);
    } else {
      JoinSplit(lines[1..]);
      SplitAfter(lines[0], Join(lines[1..]));
      assert [lines[0]] + lines[1..] == lines;
    }
  }

  /** A newline-free string splits into itself. */
  lemma {:induction false} SplitNoNewline(s: string)
    requires NoNewline(s)
    ensures Split(s) == [s]
    decreases |s|
  {
    if |s| > 0 {
      SplitNoNewline(s[1..]);
      assert [s[0]] + s[1..] == s;
    }
  }

  /** A newline-free line in front of a newline starts a new piece. */
  lemma {:induction false} SplitAfter(a: string, b: string)
    requires NoNewline(a)
    ensures Split(a + "\n" + b) == [a] + Split(b)
    decreases |a|
  {
    if |a| == 0 {
      assert a + "\n" + b == "\n" + b;
      assert ("\n" + b)[1..] == b;
    } else {
      SplitAfter(a[1..], b);
      assert (a + "\n" + b)[1..] == a[1..] + "\n" + b;
      assert [a[0]] + a[1..] == a;
    }
  }

  /** `marker` occurs in `s` at index j. */
  predicate OccursAt(s: string, marker: string, j: int)
  {
    0 <= j && j + |marker| <= |s| && s[j..j + |marker|] == marker
  }

  /** The first index at which `marker` occurs in `s`. */
  function Find(s: string, marker: string): Option<nat>
    decreases |s|
  {
    if |s| < |marker| then None
    else if s[..|marker|] == marker then Some(0)
    else match Find(s[1..], marker)
      case None => None
      case Some(i) => Some(i + 1)
  }

  /** Find reports the first occurrence, and None exactly when there is
      none. */
  lemma {:induction false} FindIsFirst(s: string, marker: string)
    ensures Find(s, marker).Some? ==> OccursAt(s, marker, Find(s, marker).value)
    ensures Find(s, marker).Some? ==> forall j :: 0 <= j < Find(s, marker).value ==> !OccursAt(s, marker, j)
    ensures Find(s, marker).None? ==> forall j :: !OccursAt(s, marker, j)
    decreases |s|
  {
    if |s| >= |marker| && s[..|marker|] != marker {
      FindIsFirst(s[1..], marker);
      forall j | 0 <= j
        ensures OccursAt(s, marker, j + 1) <==> OccursAt(s[1..], marker, j)
      {
        if j + 1 + |marker| <= |s| {
          var here, there := s[j + 1..j + 1 + |marker|], s[1..][j..j + |marker|];
          assert forall k :: 0 <= k < |marker| ==> here[k] == there[k];
          assert here == there;
        }
      }
      assert !OccursAt(s, marker, 0);
      forall j | OccursAt(s, marker, j)
        ensures j > 0 && OccursAt(s[1..], marker, j - 1)
      {
      }
    }
  }

  /** `.*` after the marker: everything up to the first line terminator. */
  function ToTerminator(s: string): (r: string)
    ensures |r| <= |s| && r == s[..|r|]
    ensures forall i :: 0 <= i < |r| ==> !IsLineTerminator(r[i])
    ensures |r| < |s| ==> IsLineTerminator(s[|r|])
  {
    if |s| == 0 || IsLineTerminator(s[0]) then "" else [s[0]] + ToTerminator(s[1..])
  }

  /** The `expect` group of `line.match(/<marker>(?<expect>.*)/)`. */
  function Captured(line: string, marker: string): (r: Option<string>)
    ensures r.None? <==> Find(line, marker).None?
    ensures r.Some? ==> forall i :: 0 <= i < |r.value| ==> !IsLineTerminator(r.value[i])
  {
    FindIsFirst(line, marker);
    match Find(line, marker)
    case None => None
    case Some(i) => Some(ToTerminator(line[i + |marker|..]))
  }

  /** The number of white-space characters `s` starts with. */
  function LeadingSpaces(s: string): (n: nat)
    ensures n <= |s| && forall i :: 0 <= i < n ==> IsJsSpace(s[i])
    ensures n < |s| ==> !IsJsSpace(s[n])
  {
    if |s| > 0 && IsJsSpace(s[0]) then 1 + LeadingSpaces(s[1..]) else 0
  }

  /** The number of white-space characters `s` ends with. */
  function TrailingSpaces(s: string): (n: nat)
    ensures n <= |s| && forall i :: |s| - n <= i < |s| ==> IsJsSpace(s[i])
    ensures n < |s| ==> !IsJsSpace(s[|s| - n - 1])
  {
    if |s| > 0 && IsJsSpace(s[|s| - 1]) then 1 + TrailingSpaces(s[..|s| - 1]) else 0
  }

  /** trim(): the leading white space dropped, then the trailing. */
  function Trim(s: string): string
  {
    var t := s[LeadingSpaces(s)..];
    t[..|t| - TrailingSpaces(t)]
  }

  /** A trimmed string is a stretch of `s` with only white space before
      and after it, and it neither starts nor ends with white space. */
  lemma TrimProperties(s: string)
    ensures var a := LeadingSpaces(s);
            a + |Trim(s)| <= |s| && Trim(s) == s[a..a + |Trim(s)|] &&
            (forall i :: 0 <= i < a ==> IsJsSpace(s[i])) &&
            (forall i :: a + |Trim(s)| <= i < |s| ==> IsJsSpace(s[i]))
    ensures |Trim(s)| > 0 ==> !IsJsSpace(Trim(s)[0]) && !IsJsSpace(Trim(s)[|Trim(s)| - 1])
  {
    var a := LeadingSpaces(s);
    var t := s[a..];
    var b := TrailingSpaces(t);
    var r := Trim(s);
    assert r == s[a..a + |r|];
    forall i | a + |r| <= i < |s|
      ensures IsJsSpace(s[i])
    {
      assert s[i] == t[i - a];
    }
    if |r| > 0 {
      assert r[0] == t[0];
      assert b < |t|;
    }
  }

  /** Trimming twice is trimming once. */
  lemma TrimIdempotent(s: string)
    ensures Trim(Trim(s)) == Trim(s)
  {
    var r := Trim(s);
    TrimProperties(s);
    assert LeadingSpaces(r) == 0;
    assert TrailingSpaces(r) == 0;
    assert r[0..][..|r|] == r;
  }

  // ---------------------------------------------------------------------
  // get_expected.

  const ExpectMarker := "// expect: "
  const ErrorMarker := "// error: "
  const OptionMarker := "// option: "

  /** A FileInfo: the expected (or produced) output and error lines, the
      options, and the exit status. */
  datatype FileInfo = FileInfo(output: seq<string>, errors: seq<string>, options: seq<string>, status: int)

  /** What one line adds to the list for `marker`: its payload, if it
      carries the marker. */
  function LinePayload(line: string, marker: string): (r: seq<string>)
    ensures |r| <= 1 && (|r| == 1 <==> Captured(line, marker).Some?)
    ensures |r| == 1 ==> r[0] == Captured(line, marker).value
  {
    match Captured(line, marker)
    case None => []
    case Some(p) => [p]
  }

  /** The payloads `marker` lines carry, in line order. */
  function Payloads(lines: seq<string>, marker: string): seq<string>
  {
    if |lines| == 0 then []
    else Payloads(lines[..|lines| - 1], marker) + LinePayload(lines[|lines| - 1], marker)
  }

  /** `f` applied to each element. */
  function Map<A, B>(f: A -> B, xs: seq<A>): (r: seq<B>)
    ensures |r| == |xs| && forall k :: 0 <= k < |xs| ==> r[k] == f(xs[k])
  {
    seq(|xs|, k requires 0 <= k < |xs| => f(xs[k]))
  }

  lemma MapAppend<A, B>(f: A -> B, xs: seq<A>, ys: seq<A>)
    ensures Map(f, xs + ys) == Map(f, xs) + Map(f, ys)
  {
    var l, r := Map(f, xs + ys), Map(f, xs) + Map(f, ys);
    forall k | 0 <= k < |l|
      ensures l[k] == r[k]
    {
      if k < |xs| {
        assert (xs + ys)[k] == xs[k];
      } else {
        assert (xs + ys)[k] == ys[k - |xs|];
      }
    }
  }

  /** The payloads with each one trimmed. */
  function TrimAll(ps: seq<string>): seq<string>
  {
    Map(Trim, ps)
  }

  /** What get_expected reads from a test file's text. */
  function Expected(content: string): FileInfo
  {
    var lines := Split(content);
    FileInfo(Payloads(lines, ExpectMarker), Payloads(lines, ErrorMarker), TrimAll(Payloads(lines, OptionMarker)), 0)
  }

  /** get_expected: one pass over the lines; each of the three patterns is
      tried on every line, independently of the others. */
  method GetExpected(content: string) returns (fi: FileInfo)
    ensures fi == Expected(content)
  {
    var lines := Split(content);
    fi := FileInfo([], [], [], 0);
    var i := 0;
    while i < |lines|
      invariant 0 <= i <= |lines|
      invariant fi.output == Payloads(lines[..i], ExpectMarker)
      invariant fi.errors == Payloads(lines[..i], ErrorMarker)
      invariant fi.options == TrimAll(Payloads(lines[..i], OptionMarker))
      invariant fi.status == 0
    {
      PayloadsStep(lines, i, ExpectMarker);
      PayloadsStep(lines, i, ErrorMarker);
      PayloadsStep(lines, i, OptionMarker);
      TrimAllAppend(Payloads(lines[..i], OptionMarker), LinePayload(lines[i], OptionMarker));
      fi := ClassifyLine(fi, lines[i]);
      i := i + 1;
    }
    assert lines[..i] == lines;
  }

  /** The body of get_expected's loop for one line. */
  method ClassifyLine(fi: FileInfo, line: string) returns (r: FileInfo)
    ensures r.output == fi.output + LinePayload(line, ExpectMarker)
    ensures r.errors == fi.errors + LinePayload(line, ErrorMarker)
    ensures r.options == fi.options + TrimAll(LinePayload(line, OptionMarker))
    ensures r.status == fi.status
  {
    r := fi;
    var m := Captured(line, ExpectMarker);
    if m.Some? {
      r := r.(output := r.output + [m.value]);
    }
    m := Captured(line, ErrorMarker);
    if m.Some? {
      r := r.(errors := r.errors + [m.value]);
    }
    m := Captured(line, OptionMarker);
    if m.Some? {
      r := r.(options := r.options + [Trim(m.value)]);
    }
  }

  /** One more line adds its own payload, if it has one. */
  lemma PayloadsStep(lines: seq<string>, i: nat, marker: string)
    requires i < |lines|
    ensures Payloads(lines[..i + 1], marker) ==
              Payloads(lines[..i], marker) + LinePayload(lines[i], marker)
  {
    assert lines[..i + 1][..i] == lines[..i];
  }

  lemma TrimAllAppend(a: seq<string>, b: seq<string>)
    ensures TrimAll(a + b) == TrimAll(a) + TrimAll(b)
  {
    MapAppend(Trim, a, b);
  }

  /** The three checks are independent: one more line extends each list
      by what that line carries for its own marker alone, so a line with
      two markers lands in both lists and a line with none changes
      nothing. */
  lemma LinesClassifiedIndependently(lines: seq<string>, line: string)
    ensures Payloads(lines + [line], ExpectMarker) == Payloads(lines, ExpectMarker) + LinePayload(line, ExpectMarker)
    ensures Payloads(lines + [line], ErrorMarker) == Payloads(lines, ErrorMarker) + LinePayload(line, ErrorMarker)
    ensures TrimAll(Payloads(lines + [line], OptionMarker)) ==
              TrimAll(Payloads(lines, OptionMarker)) + TrimAll(LinePayload(line, OptionMarker))
  {
    var all := lines + [line];
    var n := |lines|;
    assert all[..n + 1] == all && all[..n] == lines && all[n] == line;
    PayloadsStep(all, n, ExpectMarker);
    PayloadsStep(all, n, ErrorMarker);
    PayloadsStep(all, n, OptionMarker);
    TrimAllAppend(Payloads(lines, OptionMarker), LinePayload(line, OptionMarker));
  }

  /** A line that carries the marker adds exactly its payload; one that
      does not adds nothing. */
  lemma PayloadsOfLine(line: string, marker: string)
    ensures Payloads([line], marker) == LinePayload(line, marker)
  {
    assert [line][..0] == [];
  }

  /** The marker followed by a payload free of line terminators is
      captured as exactly that payload. */
  lemma CapturedPayload(marker: string, p: string)
    requires |marker| > 0
    requires forall i :: 0 <= i < |p| ==> !IsLineTerminator(p[i])
    ensures Captured(marker + p, marker) == Some(p)
  {
    FindIsFirst(marker + p, marker);
    assert (marker + p)[..|marker|] == marker;
    assert (marker + p)[|marker|..] == p;
    ToTerminatorWhole(p);
  }

  lemma {:induction false} ToTerminatorWhole(p: string)
    requires forall i :: 0 <= i < |p| ==> !IsLineTerminator(p[i])
    ensures ToTerminator(p) == p
    decreases |p|
  {
    if |p| > 0 {
      ToTerminatorWhole(p[1..]);
      assert [p[0]] + p[1..] == p;
    }
  }

  /** A file of `// expect: ` lines and nothing else expects exactly their
      payloads, in order, and no error or option. */
  function ExpectLines(ps: seq<string>): (r: seq<string>)
    ensures |r| == |ps| && forall k :: 0 <= k < |ps| ==> r[k] == ExpectMarker + ps[k]
  {
    if |ps| == 0 then [] else ExpectLines(ps[..|ps| - 1]) + [ExpectMarker + ps[|ps| - 1]]
  }

  lemma {:induction false} ExpectRoundTrip(ps: seq<string>)
    requires |ps| >= 1
    requires forall k :: 0 <= k < |ps| ==> forall i :: 0 <= i < |ps[k]| ==> !IsLineTerminator(ps[k][i]) && ps[k][i] != '/'
    ensures Expected(Join(ExpectLines(ps))).output == ps
    ensures Expected(Join(ExpectLines(ps))).errors == []
    ensures Expected(Join(ExpectLines(ps))).options == []
  {
    var lines := ExpectLines(ps);
    forall k | 0 <= k < |lines|
      ensures NoNewline(lines[k])
    {
      forall i | 0 <= i < |lines[k]|
        ensures lines[k][i] != '\n'
      {
        if i >= |ExpectMarker| {
          assert lines[k][i] == ps[k][i - |ExpectMarker|];
        }
      }
    }
    JoinSplit(lines);
    ExpectPayloads(ps);
    NoOtherPayloads(ps, ErrorMarker);
    NoOtherPayloads(ps, OptionMarker);
  }

  /** The payloads of the lines ExpectLines builds. */
  lemma {:induction false} ExpectPayloads(ps: seq<string>)
    requires forall k :: 0 <= k < |ps| ==> forall i :: 0 <= i < |ps[k]| ==> !IsLineTerminator(ps[k][i])
    ensures Payloads(ExpectLines(ps), ExpectMarker) == ps
    decreases |ps|
  {
    if |ps| > 0 {
      var last := ps[|ps| - 1];
      var lines := ExpectLines(ps);
      ExpectPayloads(ps[..|ps| - 1]);
      assert lines[..|lines| - 1] == ExpectLines(ps[..|ps| - 1]);
      CapturedPayload(ExpectMarker, last);
      assert ps[..|ps| - 1] + [last] == ps;
    }
  }

  /** Expect lines with slash-free payloads carry no error or option. */
  lemma {:induction false} NoOtherPayloads(ps: seq<string>, m: string)
    requires m == ErrorMarker || m == OptionMarker
    requires forall k :: 0 <= k < |ps| ==> forall i :: 0 <= i < |ps[k]| ==> ps[k][i] != '/'
    ensures Payloads(ExpectLines(ps), m) == []
    decreases |ps|
  {
    if |ps| > 0 {
      var lines := ExpectLines(ps);
      NoOtherPayloads(ps[..|ps| - 1], m);
      assert lines[..|lines| - 1] == ExpectLines(ps[..|ps| - 1]);
      NotAfterExpectMarker(ps[|ps| - 1], m);
    }
  }

  /** An expect line whose payload has no slash carries neither of the
      other two markers. */
  lemma NotAfterExpectMarker(p: string, m: string)
    requires forall i :: 0 <= i < |p| ==> p[i] != '/'
    requires m == ErrorMarker || m == OptionMarker
    ensures Find(ExpectMarker + p, m) == None
  {
    var s := ExpectMarker + p;
    FindIsFirst(s, m);
    SlashesOnlyInMarker(p);
    forall j | 0 <= j && j + |m| <= |s|
      ensures !OccursAt(s, m, j)
    {
      var here := s[j..j + |m|];
      if j == 0 {
        assert here[4] == s[4];
      } else if j == 1 {
        assert here[1] == s[2];
      } else {
        assert here[0] == s[j];
      }
    }
  }

  /** Past its first two characters, an expect line with a slash-free
      payload has no slash. */
  lemma SlashesOnlyInMarker(p: string)
    requires forall i :: 0 <= i < |p| ==> p[i] != '/'
    ensures (ExpectMarker + p)[2] == ' ' && (ExpectMarker + p)[4] == 'x'
    ensures forall j :: 2 <= j < |ExpectMarker + p| ==> (ExpectMarker + p)[j] != '/'
  {
    var s := ExpectMarker + p;
    forall j | 2 <= j < |s|
      ensures s[j] != '/'
    {
      if j >= |ExpectMarker| {
        assert s[j] == p[j - |ExpectMarker|];
      }
    }
  }

  // ---------------------------------------------------------------------
  // execute_test and spawnP: the captured streams as line lists.

  /** The exit handler's `code ?? 0`: no exit code counts as status 0. */
  function ExitStatus(code: Option<int>): (status: int)
    ensures code.None? ==> status == 0
    ensures code.Some? ==> status == code.value
  {
    match code
    case None => 0
    case Some(c) => c
  }

  /** The FileInfo execute_test builds from what the interpreter wrote. */
  function Outcome(stdout: string, stderr: string, code: Option<int>): (r: FileInfo)
    ensures r.options == [] && r.status == ExitStatus(code)
  {
    FileInfo(Split(stdout), Split(stderr), [], ExitStatus(code))
  }

  /** The captured text is exactly the lines glued back with newlines. */
  lemma OutcomeKeepsText(stdout: string, stderr: string, code: Option<int>)
    ensures Join(Outcome(stdout, stderr, code).output) == stdout
    ensures Join(Outcome(stdout, stderr, code).errors) == stderr
  {
    SplitJoin(stdout);
    SplitJoin(stderr);
  }

  // ---------------------------------------------------------------------
  // test_with_options: which results pass.

  /** The lines both lists have agree. */
  predicate AgreeOnCommon(expected: seq<string>, actual: seq<string>)
  {
    forall i :: 0 <= i < |expected| && i < |actual| ==> actual[i] == expected[i]
  }

  /** A result passes when its output agrees with the expected output on
      the lines both have and, when the status is not 0, the same holds
      for the error lines. */
  predicate Passes(expected: FileInfo, result: FileInfo)
  {
    AgreeOnCommon(expected.output, result.output) &&
    (result.status != 0 ==> AgreeOnCommon(expected.errors, result.errors))
  }

  /** One comparison loop: the first index below both lengths at which
      the lists differ, if any. */
  method FirstMismatch(expected: seq<string>, actual: seq<string>) returns (r: Option<nat>)
    ensures r.None? <==> AgreeOnCommon(expected, actual)
    ensures r.Some? ==> r.value < |expected| && r.value < |actual| && actual[r.value] != expected[r.value]
    ensures r.Some? ==> AgreeOnCommon(expected[..r.value], actual)
  {
    var i := 0;
    while i < |expected| && i < |actual|
      invariant 0 <= i && i <= |expected| && i <= |actual| && forall j :: 0 <= j < i ==> actual[j] == expected[j]
    {
      if actual[i] != expected[i] {
        return Some(i);
      }
      i := i + 1;
    }
    return None;
  }

  /** The body of the test: the output lines, then the error lines when
      the status is not 0. `failedAt` is the first failing expectation,
      as (stream, index) with stream 0 for output and 1 for errors. */
  method CheckResult(expected: FileInfo, result: FileInfo) returns (failedAt: Option<(nat, nat)>)
    ensures failedAt.None? <==> Passes(expected, result)
    ensures failedAt.Some? && failedAt.value.0 == 0 ==>
              (failedAt.value.1 < |result.output| && failedAt.value.1 < |expected.output| &&
               result.output[failedAt.value.1] != expected.output[failedAt.value.1])
    ensures failedAt.Some? && failedAt.value.0 == 1 ==>
              (result.status != 0 && AgreeOnCommon(expected.output, result.output) &&
               failedAt.value.1 < |result.errors| && failedAt.value.1 < |expected.errors| &&
               result.errors[failedAt.value.1] != expected.errors[failedAt.value.1])
    ensures failedAt.Some? ==> failedAt.value.0 <= 1
  {
    var m := FirstMismatch(expected.output, result.output);
    if m.Some? {
      return Some((0, m.value));
    }
    if result.status != 0 {
      m := FirstMismatch(expected.errors, result.errors);
      if m.Some? {
        return Some((1, m.value));
      }
    }
    return None;
  }

  /** Extra lines after the expected ones, or expected lines the program
      never wrote, never make a test fail. */
  lemma TrailingLinesNeverFail(expected: seq<string>, more: seq<string>, k: nat)
    requires k <= |expected|
    ensures AgreeOnCommon(expected, expected + more)
    ensures AgreeOnCommon(expected, expected[..k])
    ensures AgreeOnCommon(expected + more, expected)
  {
  }

  /** The error lines count only when the status is not 0. */
  lemma ErrorsIgnoredOnSuccess(expected: FileInfo, result: FileInfo)
    requires result.status == 0
    ensures Passes(expected, result) <==> AgreeOnCommon(expected.output, result.output)
  {
  }

  /** A run that wrote exactly the expected lines, with a trailing newline
      or not, and exited with status 0 passes. */
  lemma ExactOutputPasses(expected: FileInfo, newline: bool)
    requires |expected.output| >= 1
    requires forall k :: 0 <= k < |expected.output| ==> NoNewline(expected.output[k])
    ensures Passes(expected, Outcome(Join(expected.output) + (if newline then "\n" else ""), "", Some(0)))
  {
    var ps := expected.output;
    if newline {
      JoinSnoc(ps);
      JoinSplit(ps + [""]);
      assert Split(Join(ps) + "\n") == ps + [""];
    } else {
      JoinSplit(ps);
      assert Join(ps) + "" == Join(ps);
    }
  }

  /** Adding an empty last line adds a trailing newline. */
  lemma {:induction false} JoinSnoc(lines: seq<string>)
    requires |lines| >= 1
    ensures Join(lines + [""]) == Join(lines) + "\n"
    decreases |lines|
  {
    if |lines| == 1 {
      assert (lines + [""])[1..] == [""];
    } else {
      JoinSnoc(lines[1..]);
      assert (lines + [""])[1..] == lines[1..] + [""];
    }
  }

  // ---------------------------------------------------------------------
  // find_files over a directory tree.

  /** A directory entry: a file, a directory with its entries in listing
      order, or anything else (which is neither). */
  datatype Entry =
    | File(name: string)
    | Dir(name: string, entries: seq<Entry>)
    | Other(name: string)

  predicate EndsWith(s: string, suffix: string)
  {
    |suffix| <= |s| && s[|s| - |suffix|..] == suffix
  }

  /** find_files: the files whose names end in the suffix, paths relative
      to the directory listed, in listing order, subdirectories in place. */
  function FindFiles(entries: seq<Entry>, suffix: string): seq<string>
    decreases entries, 0
  {
    if |entries| == 0 then []
    else FindIn(entries[0], suffix) + FindFiles(entries[1..], suffix)
  }

  /** What one entry contributes to the listing. */
  function FindIn(e: Entry, suffix: string): seq<string>
    decreases e, 1
  {
    match e
    case File(name) => if EndsWith(name, suffix) then [name] else []
    case Dir(name, sub) => Prefixed(name + "/", FindFiles(sub, suffix))
    case Other(_) => []
  }

  /** `.map(fileName => dir/fileName)`. */
  function Prefixed(prefix: string, names: seq<string>): (r: seq<string>)
    ensures |r| == |names| && forall k :: 0 <= k < |names| ==> r[k] == prefix + names[k]
  {
    if |names| == 0 then [] else [prefix + names[0]] + Prefixed(prefix, names[1..])
  }

  /** A file in the tree at a path of directory names. */
  predicate FileAt(entries: seq<Entry>, dirs: seq<string>, name: string)
    decreases entries
  {
    exists k :: 0 <= k < |entries| &&
      if |dirs| == 0 then entries[k] == File(name)
      else entries[k].Dir? && entries[k].name == dirs[0] && FileAt(entries[k].entries, dirs[1..], name)
  }

  /** The path find_files reports for a file. */
  function PathOf(dirs: seq<string>, name: string): string
  {
    if |dirs| == 0 then name else dirs[0] + "/" + PathOf(dirs[1..], name)
  }

  /** Every name listed ends with the suffix. */
  lemma {:induction false} FoundEndWithSuffix(entries: seq<Entry>, suffix: string)
    ensures forall k :: 0 <= k < |FindFiles(entries, suffix)| ==> EndsWith(FindFiles(entries, suffix)[k], suffix)
    decreases entries, 0
  {
    if |entries| > 0 {
      FoundInEndWithSuffix(entries[0], suffix);
      FoundEndWithSuffix(entries[1..], suffix);
    }
  }

  lemma {:induction false} FoundInEndWithSuffix(e: Entry, suffix: string)
    ensures forall k :: 0 <= k < |FindIn(e, suffix)| ==> EndsWith(FindIn(e, suffix)[k], suffix)
    decreases e, 1
  {
    if e.Dir? {
      FoundEndWithSuffix(e.entries, suffix);
      var inner := FindFiles(e.entries, suffix);
      forall k | 0 <= k < |inner|
        ensures EndsWith(e.name + "/" + inner[k], suffix)
      {
        var s := e.name + "/" + inner[k];
        assert s[|s| - |suffix|..] == inner[k][|inner[k]| - |suffix|..];
      }
    }
  }

  /** Every file of the tree whose name ends with the suffix is listed,
      under its path of directory names. */
  lemma {:induction false} FilesAreFound(entries: seq<Entry>, dirs: seq<string>, name: string, suffix: string)
    requires FileAt(entries, dirs, name) && EndsWith(name, suffix)
    ensures PathOf(dirs, name) in FindFiles(entries, suffix)
    decreases entries
  {
    var k :| 0 <= k < |entries| &&
      if |dirs| == 0 then entries[k] == File(name)
      else entries[k].Dir? && entries[k].name == dirs[0] && FileAt(entries[k].entries, dirs[1..], name);
    InListing(entries, k, suffix);
    if |dirs| > 0 {
      FilesAreFound(entries[k].entries, dirs[1..], name, suffix);
      var inner := FindFiles(entries[k].entries, suffix);
      var i :| 0 <= i < |inner| && inner[i] == PathOf(dirs[1..], name);
      assert FindIn(entries[k], suffix)[i] == PathOf(dirs, name);
    }
  }

  /** Every listed path is the path of a file of the tree whose name ends
      with the suffix: nothing but files is listed, and no directory name
      counts towards the suffix. */
  lemma FoundAreFiles(entries: seq<Entry>, suffix: string, p: string)
    requires p in FindFiles(entries, suffix)
    ensures exists dirs, name :: FileAt(entries, dirs, name) && EndsWith(name, suffix) && p == PathOf(dirs, name)
  {
    var dirs, name := FoundPath(entries, suffix, p);
  }

  /** The file behind a listed path, found by following the listing. */
  lemma {:induction false} FoundPath(entries: seq<Entry>, suffix: string, p: string) returns (dirs: seq<string>, name: string)
    requires p in FindFiles(entries, suffix)
    ensures FileAt(entries, dirs, name) && EndsWith(name, suffix) && p == PathOf(dirs, name)
    decreases entries, 0
  {
    assert |entries| > 0;
    if p in FindIn(entries[0], suffix) {
      dirs, name := FoundInPath(entries[0], suffix, p);
    } else {
      dirs, name := FoundPath(entries[1..], suffix, p);
      var k :| 0 <= k < |entries[1..]| &&
        if |dirs| == 0 then entries[1..][k] == File(name)
        else entries[1..][k].Dir? && entries[1..][k].name == dirs[0] && FileAt(entries[1..][k].entries, dirs[1..], name);
      assert entries[k + 1] == entries[1..][k];
    }
  }

  /** The file behind a path one entry contributes. */
  lemma {:induction false} FoundInPath(e: Entry, suffix: string, p: string) returns (dirs: seq<string>, name: string)
    requires p in FindIn(e, suffix)
    ensures if |dirs| == 0 then e == File(name)
            else e.Dir? && e.name == dirs[0] && FileAt(e.entries, dirs[1..], name)
    ensures EndsWith(name, suffix) && p == PathOf(dirs, name)
    decreases e, 1
  {
    match e
    case File(n) =>
      dirs, name := [], n;
    case Dir(n, sub) =>
      var inner := FindFiles(sub, suffix);
      var i :| 0 <= i < |inner| && p == n + "/" + inner[i];
      var d, m := FoundPath(sub, suffix, inner[i]);
      dirs, name := [n] + d, m;
      assert dirs[1..] == d;
  }

  /** The listing of a directory holds the contribution of each entry. */
  lemma {:induction false} InListing(entries: seq<Entry>, k: nat, suffix: string)
    requires k < |entries|
    ensures forall x :: x in FindIn(entries[k], suffix) ==> x in FindFiles(entries, suffix)
    decreases k
  {
    if k > 0 {
      InListing(entries[1..], k - 1, suffix);
      assert entries[1..][k - 1] == entries[k];
    }
  }

  /** Files directly in the listed directory come back under their bare
      names, in listing order. */
  lemma FlatDirectory(names: seq<string>, suffix: string)
    requires forall k :: 0 <= k < |names| ==> EndsWith(names[k], suffix)
    ensures FindFiles(Files(names), suffix) == names
  {
    FlatListing(names, suffix);
  }

  function Files(names: seq<string>): (r: seq<Entry>)
    ensures |r| == |names| && forall k :: 0 <= k < |names| ==> r[k] == File(names[k])
  {
    if |names| == 0 then [] else [File(names[0])] + Files(names[1..])
  }

  lemma {:induction false} FlatListing(names: seq<string>, suffix: string)
    requires forall k :: 0 <= k < |names| ==> EndsWith(names[k], suffix)
    ensures FindFiles(Files(names), suffix) == names
    decreases |names|
  {
    if |names| > 0 {
      FlatListing(names[1..], suffix);
      assert Files(names)[1..] == Files(names[1..]);
    }
  }
}
