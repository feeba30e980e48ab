# parallel_tests core, modelled in Dafny

`parallel_tests` runs a Ruby test suite on several processes at once. This
project models the deterministic part of `lib/parallel_tests.rb` and proves
properties about it. That part has three pieces:

- **Partitioning** (`tests_in_groups`, `group_size`) makes one streaming pass
  over the `(test, weight)` pairs.
  - It keeps the index of the current group and that group's running weight.
  - A test opens the next group when half its weight would push the current
    group past the share `total / num`, unless the current group is the last
    one allowed.
  - At the end, `compact` drops the `nil` slots of the `groups` array.
- **Weighing** (`find_tests_with_sizes`) sorts the discovered test files and
  gives each one a weight.
  - The weight comes from the runtime log of an earlier run when the log has
    enough lines (`lines.size * 1.5 > tests.size`), and from the file size
    otherwise.
  - The log is read into a `Hash.new(1)` line by line, so a later line
    overwrites an earlier one.
- **Result classification** (`find_results`, `failed?`, `line_is_result?`,
  `line_is_failure?`) splits the combined output into lines.
  - It deletes the progress markers `.`, `F` and `*` from each line.
  - It keeps the lines matching `/\d+ failure/`.
  - The run failed when one of those lines matches
    `/(\d{2,}|[1-9]) (failure|error)/`.
- **`test_env_number`** gives each worker its `TEST_ENV_NUMBER`. The first
  worker gets the empty string; worker `n >= 1` gets `n + 1`.

The files:

- `ruby_text.dfy`: the Ruby library behaviour these pieces rely on.
  - `nil` becomes `Option`.
  - `String#split` with a one-character separator drops trailing empty fields.
  - `Integer#to_s` is decimal rendering.
  - `Array#sort` on strings is an insertion sort under character order.
- `test_units.dfy`: the `(test, weight)` pair and the weight sum.
- `partitioner.dfy`: the partitioner.
  - `GroupTests` is the loop. Its loop invariant ties it to a fold, `Run`,
    followed by `Compact`.
  - The lemmas about that fold give coverage, the group bound, non-empty
    groups and balance.
  - `TestsInGroups` composes weighing and grouping.
- `cost_estimator.dfy`: weighing.
  - `WeighTests` fills the `times` map in a loop. Its invariant ties the map
    to `ProfileTime`, a right-to-left definition in which the last line naming
    a test wins.
- `result_aggregator.dfy`: the two regular expressions, written as predicates
  on positions, and a scan proved equivalent to each.
- `test_env.dfy`: `test_env_number`.

How the model represents what it cannot run:

- I/O becomes parameters.
  - The runtime log arrives as `Option<string>`. `None` is the unreadable
    file that the `rescue` turns into no lines.
  - `String#to_f` is a function parameter `toF`.
  - `File.stat(test).size` is an oracle `fileSize`.
- Weights are exact `real`s.

## Model

| member | source | states |
|---|---|---|
| `Partitioner.GroupSize` | lib/parallel_tests.rb:69-72 | the share times `num` is the total weight of all tests |
| `Partitioner.GroupTests` | lib/parallel_tests.rb:6-19 | the loop returns exactly `Partition(tests, num)`; the groups laid end to end are the test names in input order; at most `num` groups (one when `num <= 1`); at least one group when there is a test; no group is empty |
| `Partitioner.TestsInGroups` | lib/parallel_tests.rb:3-20 | every discovered test is scheduled exactly once: the groups laid end to end are the discovered files sorted, a permutation of them; at most `num` groups (one when `num <= 1`), none empty, and at least one when any test exists |
| `Partitioner.RunConsistent` | lib/parallel_tests.rb:7-18 | after any number of loop turns the state is consistent. The group index is below the allowed count. Every slot but the first holds a non-empty list. Slot 0 is `nil` exactly when the first test split. The current group is the latest tests, and `current_size` is their weight. The groups so far, laid end to end, are the tests so far. |
| `Partitioner.CurrentSizeIsGroupWeight` | lib/parallel_tests.rb:10-14 | `current_size` equals the total weight of the tests in the current group, which are the last `k >= 1` tests placed |
| `Partitioner.PartitionCovers` | lib/parallel_tests.rb:8-19 | no test is lost, duplicated or reordered |
| `Partitioner.PartitionBounded` | lib/parallel_tests.rb:10-12 | the group count is at most `max(num, 1)`, and at least 1 for a non-empty input |
| `Partitioner.PartitionGroupsNonEmpty` | lib/parallel_tests.rb:16-19 | after `compact`, every group holds a test |
| `Partitioner.HeavyFirstTestSkipsGroupZero` | lib/parallel_tests.rb:10-19 | slot 0 stays `nil` exactly when `num > 1` and half the first test outweighs the share; then at most `num - 1` groups come back |
| `Partitioner.ClosedGroupIsBalanced` | lib/parallel_tests.rb:10-14 | a group closed by a split holds at least one test. Its weight plus half of the splitting test exceeds the share. If it holds two or more tests, its weight is at most the share plus half of its last test. |
| `Partitioner.FiveTestExample` | lib/parallel_tests.rb:3-19 | weights 10, 10, 10, 10, 60 in 3 groups give `[[t1,t2,t3],[t4],[t5]]` |
| `Partitioner.HeavyFirstTestExample` | lib/parallel_tests.rb:3-19 | weights 100, 1, 1 in 3 groups give only 2 groups, `[[a],[b,c]]` |
| `Partitioner.HeavyLastTestExample` | lib/parallel_tests.rb:3-19 | weights 1, 1, 1, 100 in 3 groups give only 2 groups, `[[a,b,c],[d]]` |
| `TestUnits.TotalWeightAppend` | lib/parallel_tests.rb:70 | the `inject` sum of two runs of tests is the sum of their sums |
| `CostEstimator.ProfileLines` | lib/parallel_tests.rb:79 | an unreadable log gives no lines; no line holds a newline, and the last line is not empty |
| `CostEstimator.ProfileThreshold` | lib/parallel_tests.rb:81 | `lines.size * 1.5 > tests.size` holds iff `3 * lines > 2 * tests`, iff `lines > floor(2 * tests / 3)` |
| `CostEstimator.ParseLine` | lib/parallel_tests.rb:85-86 | the key is `nil` exactly when the line splits into no fields; the time is 0 when there is no second field |
| `CostEstimator.WellFormedLine` | lib/parallel_tests.rb:85-86 | a line `<test>:<duration>` (neither part holding `:`, the duration non-empty) gives key `test` and time `to_f(duration)` |
| `CostEstimator.LineWithoutColon` | lib/parallel_tests.rb:85-86 | a non-empty line without `:` is not skipped: the whole line becomes a key with time 0 |
| `CostEstimator.ProfileTimeUnnamed` | lib/parallel_tests.rb:83-88 | a test that no log line names weighs 1 (the hash default) |
| `CostEstimator.ProfileTimeLastEntry` | lib/parallel_tests.rb:83-88 | the last log line naming a test decides its weight |
| `CostEstimator.WeighTests` | lib/parallel_tests.rb:81-92 | one pair per test, in order; weights from the log (the last line naming the test, else 1) when the log is trusted, file sizes otherwise |
| `CostEstimator.FindTestsWithSizes` | lib/parallel_tests.rb:74-93 | the pairs name the discovered tests sorted, a permutation of them; weights as in `WeighTests` |
| `RubyText.SortStrings` | lib/parallel_tests.rb:75 | `sort` returns its input as a permutation, in ascending order |
| `RubyText.LexLessEqTotal` | lib/parallel_tests.rb:75 | any two test names are comparable |
| `RubyText.SplitLosesOnlyTrailingSeparators` | lib/parallel_tests.rb:40 | the lines `split` returns, joined by newlines, form a prefix of the text, and what remains is only newlines |
| `RubyText.SplitOfPiece` | lib/parallel_tests.rb:85 | a non-empty text without the separator splits into itself |
| `ResultAggregator.StripMarkers` | lib/parallel_tests.rb:41 | the cleaned line holds no `.`, `F` or `*`, and it is no longer than the original |
| `ResultAggregator.StripMarkersAppend` | lib/parallel_tests.rb:41 | deletion distributes over concatenation, so every other character is kept in order |
| `ResultAggregator.StripMarkersKeepsClean` | lib/parallel_tests.rb:41 | a marker-free line is unchanged |
| `ResultAggregator.LineIsResult` | lib/parallel_tests.rb:61-63 | true iff the line contains one or more digits immediately followed by " failure" |
| `ResultAggregator.LineIsFailure` | lib/parallel_tests.rb:65-67 | true iff the line contains two or more digits, or one nonzero digit, immediately followed by " failure" or " error" |
| `ResultAggregator.FindResults` | lib/parallel_tests.rb:39-45 | every returned line is a result line and holds no marker |
| `ResultAggregator.ResultsAppend` | lib/parallel_tests.rb:39-45 | results preserve line order: the results of two runs of lines are the results of each, concatenated |
| `ResultAggregator.ResultsOfLine` | lib/parallel_tests.rb:40-44 | one line yields its cleaned form exactly when that is a result line |
| `ResultAggregator.ResultsMembership` | lib/parallel_tests.rb:39-45 | a line is returned iff it is a result line and the cleaned form of some input line |
| `ResultAggregator.Failed` | lib/parallel_tests.rb:47-49 | true iff some result line matches the failure pattern |
| `ResultAggregator.FailedAppend` | lib/parallel_tests.rb:47-49 | the verdict on two lists together is the disjunction of their verdicts |
| `ResultAggregator.FailedOutput` | lib/parallel_tests.rb:39-49 | an output failed iff one of its cleaned lines is both a result line and a failure line |
| `ResultAggregator.OneFailureFails` | lib/parallel_tests.rb:61-67 | "1 failure" is a result line and a failure |
| `ResultAggregator.TenErrorsIsNotAResult` | lib/parallel_tests.rb:61-67 | "10 errors" matches the failure pattern but is not a result line |
| `ResultAggregator.TenErrorsOutputPasses` | lib/parallel_tests.rb:39-49 | an output consisting of "10 errors" alone yields no results and does not fail |
| `ResultAggregator.ZeroFailuresPasses` | lib/parallel_tests.rb:61-67 | "0 failures" is a result line and not a failure |
| `ResultAggregator.DoubleZeroFailuresFails` | lib/parallel_tests.rb:65-67 | "00 failures" counts as a failure under `\d{2,}` |
| `ResultAggregator.NoResultsPasses` | lib/parallel_tests.rb:47-49 | no result lines means no failure |
| `TestEnv.TestEnvNumber` | lib/parallel_tests.rb:51-53 | empty iff the process number is 0; otherwise digits only, with no leading zero, reading back as the number plus one, so exactly `(n + 1).to_s` |
| `TestEnv.TestEnvNumberNeverOne` | lib/parallel_tests.rb:51-53 | no worker gets "1" |
| `TestEnv.TestEnvNumberInjective` | lib/parallel_tests.rb:51-53 | different workers get different values |
| `RubyText.ParseDecimalString` | lib/parallel_tests.rb:52 | the decimal rendering of a number reads back as that number |

## Behaviour that may be unexpected

The model follows the code in each of these places:

- One might expect exactly `num` groups whenever there are at least `num`
  tests. The code only bounds the group count from above. It can fall short
  in two ways:
  - **A heavy first test.** When half of the first test already outweighs
    the share, the loop moves to group 1 before anything is placed. Slot 0
    stays `nil`, and `compact` removes it. Weights 100, 1, 1 with `num = 3`
    give two groups (`HeavyFirstTestExample`, `HeavyFirstTestSkipsGroupZero`).
  - **A heavy last test.** Light tests may never fill a group, and one heavy
    test opens only one more group. Weights 1, 1, 1, 100 with `num = 3` give
    `[[a, b, c], [d]]` (`HeavyLastTestExample`).
- One might expect every group to weigh at most about the share. It does
  not: in the heavy-first example the group holding the first test weighs
  far more than the share. `ClosedGroupIsBalanced` states the bound the code
  does keep.
- One might expect malformed profile lines to be skipped. They are not
  (`LineWithoutColon`):
  - a line without `:` becomes a key with weight 0;
  - an empty line inside the log becomes the `nil` key.
- One might expect a test without a readable file to weigh 1. In the code,
  `File.stat` raises for such a file, and nothing rescues the exception.
  `fileSize` is a total oracle here, so that path is not modelled.
- A line reporting only errors ("10 errors") matches the failure pattern,
  but it is not a result line. On its own it therefore does not fail a run
  (`TenErrorsOutputPasses`).

## Left out

- The `Parallel` class (lib/parallel_tests.rb:101-171) is left out because it
  is threads, `fork`, pipes, `Marshal` and signal handling.
- `processor_count` is left out because it shells out to `hwprefs` or reads
  `/proc/cpuinfo`.
- `run_tests` and `execute_command` are left out because they build a shell
  command, open a pipe, and stream and print its output. Only
  `test_env_number`, which they interpolate, is modelled.
- `find_tests` is left out because it is a directory glob. Its result is the
  parameter `found` of `FindTestsWithSizes` and `TestsInGroups`.
- `File.read` of the runtime log and `File.stat` are left out as file-system
  I/O. They become the `log` parameter and the `fileSize` oracle, and the
  oracle cannot raise.
- Floating point is left out.
  - Weights, the share `total / num.to_f` and `to_f` are exact reals here,
    with `to_f` an abstract function.
  - IEEE rounding, `Infinity` and `NaN` are not modelled.
  - With `num == 0` Ruby divides by `0.0` and never splits. The model
    evaluates `num > current_group + 1` first, which is also false then, so
    the outcome is the same.
- `Partitioner.TestsInGroups` states how the result depends on the weights
  only through `GroupTests`, whose contract ties it to `Partition`. Its own
  contract speaks of coverage and counts.
- `RubyText.SortStrings` orders strings by character code. Ruby compares the
  bytes of UTF-8 strings, which gives the same order. Encodings are not
  modelled.
