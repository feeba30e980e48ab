/** `find_tests_with_sizes`: a weight for every test, taken from the runtime
    log of an earlier run when that log is long enough, otherwise from the
    size of the test file. The file system is abstracted away: the log
    arrives as its text (or `None` when it cannot be read), `to_f` as a
    function, and `File.stat(test).size` as an oracle. */
module CostEstimator {
  import opened RubyText
  import opened TestUnits

  /** `File.read(runtime_file).split("\n") rescue []`: the lines of the
      log, none when it could not be read. */
  function ProfileLines(log: Option<string>): (lines: seq<string>)
    ensures log.None? ==> lines == []
    ensures forall i :: 0 <= i < |lines| ==> '\n' !in lines[i]
    ensures lines == [] || lines[|lines| - 1] != ""
  {
    match log
    case None => []
    case Some(text) => Split(text, '\n')
  }

  /** `lines.size * 1.5 > tests.size`: the log is trusted when it has more
      than two lines for every three tests. */
  predicate UsesProfile(lineCount: nat, testCount: nat)
  {
    lineCount as real * 1.5 > testCount as real
  }

  /** The trust rule in whole numbers: the log is used exactly when it has
      more lines than two thirds of the test count, rounded down; so with
      `t` tests, `2t/3 + 1` lines are needed. */
  lemma ProfileThreshold(lineCount: nat, testCount: nat)
    ensures UsesProfile(lineCount, testCount) <==> 3 * lineCount > 2 * testCount
    ensures UsesProfile(lineCount, testCount) <==> lineCount > (2 * testCount) / 3
  {
    var q, r := (2 * testCount) / 3, (2 * testCount) % 3;
    assert 2 * testCount == 3 * q + r && 0 <= r < 3;
    if lineCount > q {
      assert 3 * lineCount >= 3 * q + 3;
    } else {
      assert 3 * lineCount <= 3 * q;
    }
  }

  /** `test, time = line.split(":")` followed by `time.to_f`: the test a log
      line names (`nil` for a line with no fields) and the duration it
      records. A missing duration is `nil`, and `nil.to_f` is 0. */
  function ParseLine(line: string, toF: string -> real): (entry: (Option<string>, real))
    ensures entry.0.Some? <==> Split(line, ':') != []
    ensures |Split(line, ':')| < 2 ==> entry.1 == 0.0
  {
    var fields := Split(line, ':');
    var test := if |fields| >= 1 then Some(fields[0]) else None;
    var time := if |fields| >= 2 then toF(fields[1]) else 0.0;
    (test, time)
  }

  /** `times[key]` for `times = Hash.new(1)`: 1 for a key never stored. */
  function HashGet(times: map<Option<string>, real>, key: Option<string>): real
  {
    if key in times then times[key] else 1.0
  }

  /** The weight the log gives `key`: the duration on the last line that
      names it, 1 if no line does. */
  function ProfileTime(lines: seq<string>, key: Option<string>, toF: string -> real): real
  {
    if lines == [] then 1.0
    else if ParseLine(lines[|lines| - 1], toF).0 == key then ParseLine(lines[|lines| - 1], toF).1
    else ProfileTime(lines[..|lines| - 1], key, toF)
  }

  /** A test that no log line names weighs 1. */
  lemma {:induction false} ProfileTimeUnnamed(lines: seq<string>, key: Option<string>, toF: string -> real)
    requires forall j :: 0 <= j < |lines| ==> ParseLine(lines[j], toF).0 != key
    ensures ProfileTime(lines, key, toF) == 1.0
  {
    if lines != [] {
      var init := lines[..|lines| - 1];
      assert forall j :: 0 <= j < |init| ==> init[j] == lines[j];
      ProfileTimeUnnamed(init, key, toF);
    }
  }

  /** Later lines overwrite earlier ones: the last line that names a test
      decides its weight. */
  lemma {:induction false} ProfileTimeLastEntry(lines: seq<string>, key: Option<string>, toF: string -> real, j: nat)
    requires j < |lines| && ParseLine(lines[j], toF).0 == key
    requires forall m :: j < m < |lines| ==> ParseLine(lines[m], toF).0 != key
    ensures ProfileTime(lines, key, toF) == ParseLine(lines[j], toF).1
  {
    if j < |lines| - 1 {
      var init := lines[..|lines| - 1];
      assert forall m :: 0 <= m < |init| ==> init[m] == lines[m];
      ProfileTimeLastEntry(init, key, toF, j);
    }
  }

  /** A non-empty log line without a colon is not skipped: the whole line is
      taken as a test name with duration 0. */
  lemma LineWithoutColon(line: string, toF: string -> real)
    requires line != [] && ':' !in line
    ensures ParseLine(line, toF) == (Some(line), 0.0)
  {
    SplitOfPiece(line, ':');
  }

  /** A well-formed log line `<test>:<duration>` names that test and
      records `to_f` of that duration. */
  lemma WellFormedLine(name: string, duration: string, toF: string -> real)
    requires ':' !in name && ':' !in duration && duration != []
    ensures ParseLine(name + [':'] + duration, toF) == (Some(name), toF(duration))
  {
    FieldsOfSeparated(name, duration, ':');
    FieldsOfPiece(duration, ':');
  }

  /** The weighing half of `find_tests_with_sizes`, for the sorted list
      `tests`: one pair per test in the same order, weighed by the log when
      it is trusted and by the file sizes otherwise. */
  method WeighTests(tests: seq<string>, log: Option<string>, toF: string -> real, fileSize: string -> nat)
    returns (weighted: seq<WeightedTest>)
    ensures Names(weighted) == tests
    ensures UsesProfile(|ProfileLines(log)|, |tests|) ==>
              forall j :: 0 <= j < |tests| ==> weighted[j].weight == ProfileTime(ProfileLines(log), Some(tests[j]), toF)
    ensures !UsesProfile(|ProfileLines(log)|, |tests|) ==>
              forall j :: 0 <= j < |tests| ==> weighted[j].weight == fileSize(tests[j]) as real
  {
    var lines := ProfileLines(log);
    if UsesProfile(|lines|, |tests|) {
      var times: map<Option<string>, real> := map[];
      var i := 0;
      while i < |lines|
        invariant i <= |lines|
        invariant forall key :: HashGet(times, key) == ProfileTime(lines[..i], key, toF)
      {
        var (test, time) := ParseLine(lines[i], toF);
        times := times[test := time];
        assert lines[..i + 1][..i] == lines[..i];
        i := i + 1;
      }
      assert lines[..i] == lines;
      weighted := seq(|tests|, j requires 0 <= j < |tests| => WeightedTest(tests[j], HashGet(times, Some(tests[j]))));
    } else {
      weighted := seq(|tests|, j requires 0 <= j < |tests| => WeightedTest(tests[j], fileSize(tests[j]) as real));
    }
  }

  /** `find_tests_with_sizes` for the test files `found` that discovery
      returned: `found.sort`, then weighed. The pairs list the discovered
      tests in sorted order, each once. */
  method FindTestsWithSizes(found: seq<string>, log: Option<string>, toF: string -> real, fileSize: string -> nat)
    returns (weighted: seq<WeightedTest>)
    ensures Names(weighted) == SortStrings(found)
    ensures Sorted(Names(weighted)) && multiset(Names(weighted)) == multiset(found)
    ensures UsesProfile(|ProfileLines(log)|, |found|) ==>
              forall j :: 0 <= j < |weighted| ==>
                weighted[j].weight == ProfileTime(ProfileLines(log), Some(weighted[j].name), toF)
    ensures !UsesProfile(|ProfileLines(log)|, |found|) ==>
              forall j :: 0 <= j < |weighted| ==> weighted[j].weight == fileSize(weighted[j].name) as real
  {
    var tests := SortStrings(found);
    weighted := WeighTests(tests, log, toF, fileSize);
    assert forall j :: 0 <= j < |weighted| ==> weighted[j].name == Names(weighted)[j];
  }
}
