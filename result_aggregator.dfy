/** `find_results` and `failed?`: picking the summary lines out of the test
    runners' output and deciding whether the run failed. The two regular
    expressions of the source are written out as predicates on positions
    (`MatchesResultPattern`, `MatchesFailurePattern`) and matched by a
    left-to-right scan. */
module ResultAggregator {
  import opened RubyText

  /** The progress characters `find_results` deletes: dot, `F` and star. */
  predicate IsMarker(c: char) { c == '.' || c == 'F' || c == '*' }

  /** The `gsub` in `find_results`: the line with every `.`, `F` and star removed. */
  function StripMarkers(line: string): (r: string)
    ensures forall i :: 0 <= i < |r| ==> !IsMarker(r[i])
    ensures |r| <= |line|
  {
    if line == [] then []
    else (if IsMarker(line[0]) then [] else [line[0]]) + StripMarkers(line[1..])
  }

  /** Deleting markers works piece by piece: it keeps every other character,
      in order, and drops nothing else. */
  lemma {:induction false} StripMarkersAppend(a: string, b: string)
    ensures StripMarkers(a + b) == StripMarkers(a) + StripMarkers(b)
  {
    if a == [] {
      assert a + b == b;
    } else {
      assert (a + b)[1..] == a[1..] + b;
      StripMarkersAppend(a[1..], b);
    }
  }

  /** A line without markers is left as it is, so stripping twice is
      stripping once. */
  lemma {:induction false} StripMarkersKeepsClean(line: string)
    requires forall i :: 0 <= i < |line| ==> !IsMarker(line[i])
    ensures StripMarkers(line) == line
  {
    if line != [] {
      StripMarkersKeepsClean(line[1..]);
      assert [line[0]] + line[1..] == line;
    }
  }

  /** `word` occurs in `line` starting at index `i`. */
  predicate HasAt(line: string, i: int, word: string)
  {
    0 <= i && i + |word| <= |line| && line[i..i + |word|] == word
  }

  predicate AllDigits(s: string)
  {
    forall i :: 0 <= i < |s| ==> IsDigit(s[i])
  }

  /** `/\d+ failure/` as a regular expression: a run of one or more digits
      somewhere in the line, immediately followed by " failure". */
  ghost predicate MatchesResultPattern(line: string)
  {
    exists a, b :: 0 <= a < b <= |line| && AllDigits(line[a..b]) && HasAt(line, b, " failure")
  }

  /** The count the failure pattern accepts: `\d{2,}|[1-9]`, two or more
      digits, or one digit that is not zero. */
  predicate IsFailureCount(s: string)
  {
    (|s| >= 2 && AllDigits(s)) || (|s| == 1 && '1' <= s[0] <= '9')
  }

  /** `/(\d{2,}|[1-9]) (failure|error)/` as a regular expression. */
  ghost predicate MatchesFailurePattern(line: string)
  {
    exists a, b :: 0 <= a < b <= |line| && IsFailureCount(line[a..b]) &&
      (HasAt(line, b, " failure") || HasAt(line, b, " error"))
  }

  /** A digit just before index `i` and " failure" from `i` on. */
  predicate ResultAt(line: string, i: int)
  {
    1 <= i <= |line| && IsDigit(line[i - 1]) && HasAt(line, i, " failure")
  }

  /** Two digits, or one non-zero digit, just before index `i`, and
      " failure" or " error" from `i` on. */
  predicate FailureAt(line: string, i: int)
  {
    && 1 <= i <= |line|
    && ((i >= 2 && IsDigit(line[i - 2]) && IsDigit(line[i - 1])) || '1' <= line[i - 1] <= '9')
    && (HasAt(line, i, " failure") || HasAt(line, i, " error"))
  }

  /** Scans the positions from `i` on for a result match. */
  function ScanResult(line: string, i: nat): (found: bool)
    ensures found <==> exists j :: i <= j <= |line| && ResultAt(line, j)
    decreases |line| + 1 - i
  {
    if i > |line| then false else ResultAt(line, i) || ScanResult(line, i + 1)
  }

  /** Scans the positions from `i` on for a failure match. */
  function ScanFailure(line: string, i: nat): (found: bool)
    ensures found <==> exists j :: i <= j <= |line| && FailureAt(line, j)
    decreases |line| + 1 - i
  {
    if i > |line| then false else FailureAt(line, i) || ScanFailure(line, i + 1)
  }

  /** A match of `/\d+ failure/` is found exactly where one digit stands
      right before " failure": the scan need only look one character back. */
  lemma ResultPatternAtPosition(line: string)
    ensures MatchesResultPattern(line) <==> exists j :: 0 <= j <= |line| && ResultAt(line, j)
  {
    if exists j :: 0 <= j <= |line| && ResultAt(line, j) {
      var j :| 0 <= j <= |line| && ResultAt(line, j);
      assert AllDigits(line[j - 1..j]);
    }
    if MatchesResultPattern(line) {
      var a, b :| 0 <= a < b <= |line| && AllDigits(line[a..b]) && HasAt(line, b, " failure");
      assert line[a..b][b - 1 - a] == line[b - 1];
      assert ResultAt(line, b);
    }
  }

  /** Every position the scan accepts is the end of a count the failure
      pattern accepts. */
  lemma FailureAtMatches(line: string, j: int)
    requires FailureAt(line, j)
    ensures MatchesFailurePattern(line)
  {
    if j >= 2 && IsDigit(line[j - 2]) && IsDigit(line[j - 1]) {
      assert IsFailureCount(line[j - 2..j]);
    } else {
      assert IsFailureCount(line[j - 1..j]);
    }
  }

  /** Every count the failure pattern accepts ends at a position the scan
      accepts. */
  lemma MatchEndsAtFailure(line: string, a: int, b: int)
    requires 0 <= a < b <= |line| && IsFailureCount(line[a..b])
    requires HasAt(line, b, " failure") || HasAt(line, b, " error")
    ensures FailureAt(line, b)
  {
    assert line[a..b][b - 1 - a] == line[b - 1];
    if b - a >= 2 {
      assert line[a..b][b - 2 - a] == line[b - 2];
    }
  }

  /** A match of `/(\d{2,}|[1-9]) (failure|error)/` is found exactly where
      two digits, or one non-zero digit, stand right before the word: the
      scan need only look two characters back. */
  lemma FailurePatternAtPosition(line: string)
    ensures MatchesFailurePattern(line) <==> exists j :: 0 <= j <= |line| && FailureAt(line, j)
  {
    if exists j :: 0 <= j <= |line| && FailureAt(line, j) {
      var j :| 0 <= j <= |line| && FailureAt(line, j);
      FailureAtMatches(line, j);
    }
    if MatchesFailurePattern(line) {
      var a, b :| 0 <= a < b <= |line| && IsFailureCount(line[a..b]) &&
        (HasAt(line, b, " failure") || HasAt(line, b, " error"));
      MatchEndsAtFailure(line, a, b);
    }
  }

  /** `line_is_result?`: the line matches `/\d+ failure/`. A line that only
      counts errors is not a result line. */
  function LineIsResult(line: string): (b: bool)
    ensures b <==> MatchesResultPattern(line)
  {
    ResultPatternAtPosition(line);
    ScanResult(line, 0)
  }

  /** `line_is_failure?`: the line matches `/(\d{2,}|[1-9]) (failure|error)/`. */
  function LineIsFailure(line: string): (b: bool)
    ensures b <==> MatchesFailurePattern(line)
  {
    FailurePatternAtPosition(line);
    ScanFailure(line, 0)
  }

  /** The mapping and filtering in `find_results`, over lines already split:
      each line with its markers removed, kept when it is a result line. */
  function Results(lines: seq<string>): (r: seq<string>)
    ensures |r| <= |lines|
    ensures forall i :: 0 <= i < |r| ==> LineIsResult(r[i])
    ensures forall i :: 0 <= i < |r| ==> forall k :: 0 <= k < |r[i]| ==> !IsMarker(r[i][k])
  {
    if lines == [] then []
    else
      var line := StripMarkers(lines[0]);
      (if LineIsResult(line) then [line] else []) + Results(lines[1..])
  }

  /** `find_results`: the result lines of the output, markers removed, in
      the order they appear. */
  function FindResults(testOutput: string): (r: seq<string>)
    ensures forall i :: 0 <= i < |r| ==> LineIsResult(r[i])
    ensures forall i :: 0 <= i < |r| ==> forall k :: 0 <= k < |r[i]| ==> !IsMarker(r[i][k])
  {
    Results(Split(testOutput, '\n'))
  }

  /** `Results` keeps order: the results of two runs of lines are the
      results of the first followed by those of the second. With
      `ResultsOfLine` this pins `Results` down completely. */
  lemma {:induction false} ResultsAppend(a: seq<string>, b: seq<string>)
    ensures Results(a + b) == Results(a) + Results(b)
  {
    if a == [] {
      assert a + b == b;
    } else {
      assert (a + b)[1..] == a[1..] + b;
      ResultsAppend(a[1..], b);
    }
  }

  /** One line yields its stripped form exactly when that is a result line. */
  lemma ResultsOfLine(line: string)
    ensures Results([line]) == if LineIsResult(StripMarkers(line)) then [StripMarkers(line)] else []
  {
    assert [line][1..] == [];
  }

  /** A line comes back from `Results` exactly when it is the stripped form
      of some input line and a result line. */
  lemma {:induction false} ResultsMembership(lines: seq<string>, x: string)
    ensures x in Results(lines) <==> LineIsResult(x) && exists l :: l in lines && StripMarkers(l) == x
  {
    if lines != [] {
      var s := StripMarkers(lines[0]);
      ResultsMembership(lines[1..], x);
      assert Results(lines) == (if LineIsResult(s) then [s] else []) + Results(lines[1..]);
      assert lines == [lines[0]] + lines[1..];
      if exists l :: l in lines && StripMarkers(l) == x {
        var l :| l in lines && StripMarkers(l) == x;
        if l != lines[0] {
          assert l in lines[1..];
        }
      }
      if x == s {
        assert lines[0] in lines;
      }
    }
  }

  /** `failed?`: some result line reports a failure or error count other
      than zero. */
  function Failed(results: seq<string>): (b: bool)
    ensures b <==> exists i :: 0 <= i < |results| && MatchesFailurePattern(results[i])
  {
    if results == [] then false
    else LineIsFailure(results[0]) || Failed(results[1..])
  }

  /** One failing worker fails the run: the verdict on two outputs' result
      lines together is the disjunction of the verdicts. */
  lemma FailedAppend(a: seq<string>, b: seq<string>)
    ensures Failed(a + b) <==> Failed(a) || Failed(b)
  {
    if Failed(a + b) {
      var i :| 0 <= i < |a + b| && MatchesFailurePattern((a + b)[i]);
      if i >= |a| {
        assert b[i - |a|] == (a + b)[i];
      }
    }
    if Failed(a) {
      var i :| 0 <= i < |a| && MatchesFailurePattern(a[i]);
      assert (a + b)[i] == a[i];
    }
    if Failed(b) {
      var i :| 0 <= i < |b| && MatchesFailurePattern(b[i]);
      assert (a + b)[|a| + i] == b[i];
    }
  }

  /** The run as a whole failed exactly when some line of its output, once
      stripped of markers, is both a result line and a failure line. A line
      that counts only errors is not a result line, so it never fails a run. */
  lemma FailedOutput(testOutput: string)
    ensures Failed(FindResults(testOutput)) <==>
            exists l :: l in Split(testOutput, '\n') &&
              LineIsResult(StripMarkers(l)) && LineIsFailure(StripMarkers(l))
  {
    var lines := Split(testOutput, '\n');
    var r := FindResults(testOutput);
    if Failed(r) {
      var i :| 0 <= i < |r| && MatchesFailurePattern(r[i]);
      ResultsMembership(lines, r[i]);
    }
    if exists l :: l in lines && LineIsResult(StripMarkers(l)) && LineIsFailure(StripMarkers(l)) {
      var l :| l in lines && LineIsResult(StripMarkers(l)) && LineIsFailure(StripMarkers(l));
      ResultsMembership(lines, StripMarkers(l));
      var i :| 0 <= i < |r| && r[i] == StripMarkers(l);
    }
  }

  /** "1 failure" is a result line that reports a failure. */
  lemma OneFailureFails(line: string)
    requires line == "1 failure"
    ensures LineIsResult(line) && LineIsFailure(line)
  {
    assert line[1..9] == " failure";
    assert ResultAt(line, 1) && FailureAt(line, 1);
  }

  /** "10 errors" reports a failure, but it is not a result line. */
  lemma TenErrorsIsNotAResult(line: string)
    requires line == "10 errors"
    ensures LineIsFailure(line) && !LineIsResult(line)
  {
    assert line[2..8] == " error";
    assert FailureAt(line, 2);
    forall j | 0 <= j <= |line|
      ensures !ResultAt(line, j)
    {
      if j == 1 {
        assert line[1..9][0] != " failure"[0];
      }
    }
  }

  /** So an output whose only line is "10 errors" does not fail the run:
      `find_results` never hands that line to `failed?`. */
  lemma TenErrorsOutputPasses(testOutput: string)
    requires testOutput == "10 errors"
    ensures FindResults(testOutput) == [] && !Failed(FindResults(testOutput))
  {
    SplitOfPiece(testOutput, '\n');
    StripMarkersKeepsClean(testOutput);
    TenErrorsIsNotAResult(testOutput);
    ResultsOfLine(testOutput);
  }

  /** "0 failures" is a result line that reports no failure. */
  lemma ZeroFailuresPasses(line: string)
    requires line == "0 failures"
    ensures LineIsResult(line) && !LineIsFailure(line)
  {
    assert line[1..9] == " failure";
    assert ResultAt(line, 1);
    forall j | 0 <= j <= |line|
      ensures !FailureAt(line, j)
    {
      if j >= 2 {
        assert !IsDigit(line[j - 1]);
      }
    }
  }

  /** "00 failures" reports a failure: two digits satisfy `\d{2,}` even
      when both are zero. */
  lemma DoubleZeroFailuresFails(line: string)
    requires line == "00 failures"
    ensures LineIsResult(line) && LineIsFailure(line)
  {
    assert line[2..10] == " failure";
    assert ResultAt(line, 2) && FailureAt(line, 2);
  }

  /** No result lines, no failure. */
  lemma NoResultsPasses()
    ensures !Failed([])
  {
  }
}
