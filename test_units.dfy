/** The tests being scheduled. */
module TestUnits {

  /** A test file together with its estimated cost: the `[test, size]` pairs
      that `find_tests_with_sizes` hands to `tests_in_groups`. */
  datatype WeightedTest = WeightedTest(name: string, weight: real)

  /** The file names of `tests`, in order. */
  function Names(tests: seq<WeightedTest>): seq<string>
  {
    seq(|tests|, i requires 0 <= i < |tests| => tests[i].name)
  }

  /** `inject(0) { |sum, test| sum += test[1] }`: the weights added up from the left. */
  function TotalWeight(tests: seq<WeightedTest>): real
  {
    if tests == [] then 0.0 else TotalWeight(tests[..|tests| - 1]) + tests[|tests| - 1].weight
  }

  /** Adding up the weights of two runs of tests one after the other. */
  lemma {:induction false} TotalWeightAppend(a: seq<WeightedTest>, b: seq<WeightedTest>)
    ensures TotalWeight(a + b) == TotalWeight(a) + TotalWeight(b)
  {
    if b != [] {
      assert (a + b)[..|a + b| - 1] == a + b[..|b| - 1];
      TotalWeightAppend(a, b[..|b| - 1]);
    } else {
      assert a + b == a;
    }
  }
}
