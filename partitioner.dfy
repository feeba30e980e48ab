/** `tests_in_groups` and `group_size`: one streaming pass over the weighted
    tests that cuts them into at most `num` consecutive groups of roughly
    equal weight. */
module Partitioner {
  import opened RubyText
  import opened TestUnits
  import opened CostEstimator

  /** `group_size`: the weight each of the `num` groups should carry, the
      total weight divided by `num`. */
  function GroupSize(tests: seq<WeightedTest>, num: int): (share: real)
    requires num != 0
    ensures share * num as real == TotalWeight(tests)
  {
    TotalWeight(tests) / num as real
  }

  /** The most groups a call can return: `num`, but at least one, since with
      `num <= 1` nothing is ever split off. */
  function MaxGroups(num: int): nat
  {
    if num >= 1 then num else 1
  }

  /** The state of the loop in `tests_in_groups`: the `groups` array, whose
      slots may be `nil`, `current_group` and `current_size`. */
  datatype Cursor = Cursor(slots: seq<Option<seq<string>>>, group: nat, size: real)

  /** The loop's split test for a test of weight `w`: half of it would push
      the current group past the share, and the current group is not the
      last one allowed. (The source evaluates the weight comparison first;
      it has no side effect, so the order is immaterial.) */
  predicate Splits(all: seq<WeightedTest>, num: int, c: Cursor, w: real)
  {
    num > c.group + 1 && 0.5 * w + c.size > GroupSize(all, num)
  }

  /** `groups[g] ||= []; groups[g] << name`: Ruby pads the array with `nil`
      up to index `g`, starts an empty list in a `nil` slot, then appends. */
  function Place(slots: seq<Option<seq<string>>>, g: nat, name: string): seq<Option<seq<string>>>
  {
    var padded := if g < |slots| then slots else slots + seq(g + 1 - |slots|, _ => None);
    padded[g := Some((if padded[g].Some? then padded[g].value else []) + [name])]
  }

  /** One turn of the loop on test `t`. */
  function Advance(all: seq<WeightedTest>, num: int, c: Cursor, t: WeightedTest): Cursor
  {
    if Splits(all, num, c, t.weight) then
      Cursor(Place(c.slots, c.group + 1, t.name), c.group + 1, t.weight)
    else
      Cursor(Place(c.slots, c.group, t.name), c.group, c.size + t.weight)
  }

  /** The loop state once the first `n` tests of `all` are placed. */
  function Run(all: seq<WeightedTest>, n: nat, num: int): Cursor
    requires n <= |all|
  {
    if n == 0 then Cursor([], 0, 0.0) else Advance(all, num, Run(all, n - 1, num), all[n - 1])
  }

  /** `compact`: the non-`nil` slots, in order. */
  function Compact<T>(slots: seq<Option<T>>): (r: seq<T>)
    ensures |r| <= |slots|
    ensures forall i :: 0 <= i < |r| ==> Some(r[i]) in slots
  {
    if slots == [] then []
    else
      var init := Compact(slots[..|slots| - 1]);
      assert forall i :: 0 <= i < |init| ==> Some(init[i]) in slots[..|slots| - 1];
      match slots[|slots| - 1]
      case Some(v) => init + [v]
      case None => init
  }

  /** All groups laid end to end. */
  function Flatten<T>(groups: seq<seq<T>>): seq<T>
  {
    if groups == [] then [] else Flatten(groups[..|groups| - 1]) + groups[|groups| - 1]
  }

  /** What `tests_in_groups` returns for the weighted tests `tests`. */
  function Partition(tests: seq<WeightedTest>, num: int): seq<seq<string>>
  {
    Compact(Run(tests, |tests|, num).slots)
  }

  /** `tests_in_groups`, after the weights are known: the loop that keeps the
      current group index and its running weight and appends each test to
      the current group, opening the next group when the test would
      overfill the current one. */
  method GroupTests(tests: seq<WeightedTest>, num: int) returns (groups: seq<seq<string>>)
    ensures groups == Partition(tests, num)
    ensures Flatten(groups) == Names(tests)
    ensures |groups| <= MaxGroups(num)
    ensures tests != [] ==> |groups| >= 1
    ensures forall k :: 0 <= k < |groups| ==> groups[k] != []
  {
    var slots: seq<Option<seq<string>>> := [];
    var currentGroup: nat := 0;
    var currentSize: real := 0.0;
    var i := 0;
    while i < |tests|
      invariant i <= |tests|
      invariant Cursor(slots, currentGroup, currentSize) == Run(tests, i, num)
    {
      var test, size := tests[i].name, tests[i].weight;
      if num > currentGroup + 1 && 0.5 * size + currentSize > GroupSize(tests, num) {
        currentSize := size;
        currentGroup := currentGroup + 1;
      } else {
        currentSize := currentSize + size;
      }
      if currentGroup >= |slots| {
        slots := slots + seq(currentGroup + 1 - |slots|, _ => None);
      }
      var group := if slots[currentGroup].Some? then slots[currentGroup].value else [];
      slots := slots[currentGroup := Some(group + [test])];
      i := i + 1;
    }
    groups := Compact(slots);
    PartitionCovers(tests, num);
    PartitionBounded(tests, num);
    PartitionGroupsNonEmpty(tests, num);
  }

  /** `tests_in_groups(root, num)`: weigh the discovered test files `found`
      (the log, `to_f` and the file sizes as `find_tests_with_sizes` takes
      them) and cut the weighted list into groups. Every discovered test is
      scheduled exactly once, the groups in order list the tests sorted, and
      there are at most `num` groups, none of them empty. */
  method TestsInGroups(found: seq<string>, log: Option<string>, toF: string -> real, fileSize: string -> nat, num: int)
    returns (groups: seq<seq<string>>)
    ensures Flatten(groups) == SortStrings(found)
    ensures multiset(Flatten(groups)) == multiset(found)
    ensures |groups| <= MaxGroups(num)
    ensures found != [] ==> |groups| >= 1
    ensures forall k :: 0 <= k < |groups| ==> groups[k] != []
  {
    var testsWithSizes := FindTestsWithSizes(found, log, toF, fileSize);
    groups := GroupTests(testsWithSizes, num);
  }

  /** The tests of the current group: the last slot's list. */
  function CurrentGroup(c: Cursor): seq<string>
  {
    if c.group < |c.slots| && c.slots[c.group].Some? then c.slots[c.group].value else []
  }

  /** What holds of the loop state after `n` tests: its shape, the
      current group and its weight, and the tests covered so far. */
  ghost predicate Consistent(all: seq<WeightedTest>, n: nat, num: int, c: Cursor)
    requires n <= |all|
  {
    Shaped(all, n, num, c) && Tracks(all, n, c) && Covers(all, n, c)
  }

  /** The group index stays below the number of groups allowed; before any
      test there is nothing; afterwards the current group is the last slot;
      the first slot is `nil` exactly when the first test already split,
      every other slot holds a list, and no list is empty. */
  ghost predicate Shaped(all: seq<WeightedTest>, n: nat, num: int, c: Cursor)
    requires n <= |all|
  {
    && c.group < MaxGroups(num)
    && (n == 0 ==> c.slots == [] && c.group == 0 && c.size == 0.0)
    && (n > 0 ==>
          && |c.slots| == c.group + 1
          && c.slots[c.group].Some?
          && (c.slots[0].None? <==> Splits(all, num, Cursor([], 0, 0.0), all[0].weight)))
    && (forall j :: 0 < j < |c.slots| ==> c.slots[j].Some?)
    && (forall j :: 0 <= j < |c.slots| && c.slots[j].Some? ==> c.slots[j].value != [])
  }

  /** The current group holds the latest tests, and `current_size` is
      exactly their weight. */
  ghost predicate Tracks(all: seq<WeightedTest>, n: nat, c: Cursor)
    requires n <= |all|
  {
    n > 0 && c.group < |c.slots| && c.slots[c.group].Some? ==>
      var cur := c.slots[c.group].value;
      && |cur| <= n
      && cur == Names(all[n - |cur|..n])
      && c.size == TotalWeight(all[n - |cur|..n])
  }

  /** The groups laid end to end are the first `n` tests in order. */
  ghost predicate Covers(all: seq<WeightedTest>, n: nat, c: Cursor)
    requires n <= |all|
  {
    Flatten(Compact(c.slots)) == Names(all[..n])
  }

  lemma NamesSnoc(all: seq<WeightedTest>, a: nat, b: nat)
    requires a <= b < |all|
    ensures Names(all[a..b + 1]) == Names(all[a..b]) + [all[b].name]
  {
  }

  lemma TotalWeightSnoc(all: seq<WeightedTest>, a: nat, b: nat)
    requires a <= b < |all|
    ensures TotalWeight(all[a..b + 1]) == TotalWeight(all[a..b]) + all[b].weight
  {
    assert all[a..b + 1][..b - a] == all[a..b];
  }

  lemma CompactSnoc<T>(slots: seq<Option<T>>, x: Option<T>)
    ensures Compact(slots + [x]) == Compact(slots) + (if x.Some? then [x.value] else [])
  {
    assert (slots + [x])[..|slots|] == slots;
  }

  lemma FlattenSnoc<T>(groups: seq<seq<T>>, g: seq<T>)
    ensures Flatten(groups + [g]) == Flatten(groups) + g
  {
    assert (groups + [g])[..|groups|] == groups;
  }

  lemma PlaceAppends(slots: seq<Option<seq<string>>>, g: nat, name: string)
    requires g <= |slots| + 1
    ensures g < |slots| ==>
      Place(slots, g, name) == slots[g := Some((if slots[g].Some? then slots[g].value else []) + [name])]
    ensures g == |slots| ==> Place(slots, g, name) == slots + [Some([name])]
    ensures g == |slots| + 1 ==> Place(slots, g, name) == slots + [None, Some([name])]
  {
    if g >= |slots| {
      var pad: seq<Option<seq<string>>> := seq(g + 1 - |slots|, _ => None);
      var x := Some([name]);
      assert (slots + pad)[g] == None;
      assert [] + [name] == [name];
      assert Place(slots, g, name) == (slots + pad)[g := x];
      if g == |slots| {
        assert pad == [None];
        assert (slots + [None])[g := x] == slots + [x];
      } else {
        assert pad == [None, None];
        assert (slots + [None, None])[g := x] == slots + [None, x];
      }
    }
  }

  /** The first turn of the loop leads to a consistent state. */
  lemma FirstAdvanceConsistent(all: seq<WeightedTest>, num: int)
    requires 0 < |all|
    ensures Consistent(all, 1, num, Advance(all, num, Cursor([], 0, 0.0), all[0]))
  {
    FirstAdvanceSlots(all, num);
    FirstAdvanceTracks(all, num);
    FirstAdvanceCovers(all, num);
  }

  /** After the first turn the only list holds the first test, in slot 1
      behind a `nil` when it split and in slot 0 otherwise. */
  lemma FirstAdvanceSlots(all: seq<WeightedTest>, num: int)
    requires 0 < |all|
    ensures var d := Advance(all, num, Cursor([], 0, 0.0), all[0]);
      && (Splits(all, num, Cursor([], 0, 0.0), all[0].weight) ==> d.slots == [None, Some([all[0].name])] && d.group == 1)
      && (!Splits(all, num, Cursor([], 0, 0.0), all[0].weight) ==> d.slots == [Some([all[0].name])] && d.group == 0)
      && d.size == all[0].weight
      && Shaped(all, 1, num, d)
  {
    var t := all[0];
    if Splits(all, num, Cursor([], 0, 0.0), t.weight) {
      PlaceAppends([], 1, t.name);
    } else {
      PlaceAppends([], 0, t.name);
    }
  }

  lemma FirstAdvanceTracks(all: seq<WeightedTest>, num: int)
    requires 0 < |all|
    ensures Tracks(all, 1, Advance(all, num, Cursor([], 0, 0.0), all[0]))
  {
    var t := all[0];
    FirstAdvanceSlots(all, num);
    assert all[0..1] == [t];
    assert TotalWeight([t]) == TotalWeight([]) + t.weight;
    assert Names([t]) == [t.name];
  }

  lemma FirstAdvanceCovers(all: seq<WeightedTest>, num: int)
    requires 0 < |all|
    ensures Covers(all, 1, Advance(all, num, Cursor([], 0, 0.0), all[0]))
  {
    var t := all[0];
    FirstAdvanceSlots(all, num);
    assert all[..1] == [t];
    assert Names([t]) == [t.name];
    var first: seq<Option<seq<string>>> := [Some([t.name])];
    CompactSnoc([], Some([t.name]));
    FlattenSnoc([], [t.name]);
    var nils: seq<Option<seq<string>>> := [None];
    CompactSnoc<seq<string>>([], None);
    CompactSnoc(nils, Some([t.name]));
    assert nils + first == [None, Some([t.name])];
  }

  /** A later turn that opens a new group keeps the state consistent. */
  lemma SplitKeepsConsistent(all: seq<WeightedTest>, n: nat, num: int, c: Cursor)
    requires 0 < n < |all| && Consistent(all, n, num, c)
    requires Splits(all, num, c, all[n].weight)
    ensures Consistent(all, n + 1, num, Advance(all, num, c, all[n]))
  {
    var t := all[n];
    var d := Advance(all, num, c, t);
    PlaceAppends(c.slots, c.group + 1, t.name);
    assert d.slots == c.slots + [Some([t.name])];
    assert Covers(all, n + 1, d) by {
      CompactSnoc(c.slots, Some([t.name]));
      FlattenSnoc(Compact(c.slots), [t.name]);
      NamesSnoc(all, 0, n);
      assert all[..n] == all[0..n] && all[..n + 1] == all[0..n + 1];
    }
    assert Tracks(all, n + 1, d) by {
      assert all[n..n + 1] == [t];
      assert TotalWeight([t]) == TotalWeight([]) + t.weight;
    }
    assert Shaped(all, n + 1, num, d);
  }

  /** Staying in the current group extends it by the test: the group is
      still the latest tests, and its weight grows by the test's weight. */
  lemma StayTracksCurrent(all: seq<WeightedTest>, n: nat, cur: seq<string>, size: real)
    requires |cur| <= n < |all|
    requires cur == Names(all[n - |cur|..n]) && size == TotalWeight(all[n - |cur|..n])
    ensures cur + [all[n].name] == Names(all[n - |cur|..n + 1])
    ensures size + all[n].weight == TotalWeight(all[n - |cur|..n + 1])
  {
    NamesSnoc(all, n - |cur|, n);
    TotalWeightSnoc(all, n - |cur|, n);
  }

  /** Appending the test to the last group keeps the groups, laid end to
      end, equal to the tests placed so far. */
  lemma StayCovers(all: seq<WeightedTest>, n: nat, init: seq<Option<seq<string>>>, cur: seq<string>)
    requires n < |all|
    requires Flatten(Compact(init + [Some(cur)])) == Names(all[..n])
    ensures Flatten(Compact(init + [Some(cur + [all[n].name])])) == Names(all[..n + 1])
  {
    CompactSnoc(init, Some(cur));
    CompactSnoc(init, Some(cur + [all[n].name]));
    FlattenSnoc(Compact(init), cur);
    FlattenSnoc(Compact(init), cur + [all[n].name]);
    NamesSnoc(all, 0, n);
    assert all[..n] == all[0..n] && all[..n + 1] == all[0..n + 1];
  }

  /** A later turn that stays in the current group keeps the state consistent. */
  lemma StayKeepsConsistent(all: seq<WeightedTest>, n: nat, num: int, c: Cursor)
    requires 0 < n < |all| && Consistent(all, n, num, c)
    requires !Splits(all, num, c, all[n].weight)
    ensures Consistent(all, n + 1, num, Advance(all, num, c, all[n]))
  {
    var t := all[n];
    var d := Advance(all, num, c, t);
    var cur := c.slots[c.group].value;
    var init := c.slots[..c.group];
    PlaceAppends(c.slots, c.group, t.name);
    assert c.slots == init + [Some(cur)];
    assert d.slots == init + [Some(cur + [t.name])];
    assert d.group == c.group && d.size == c.size + t.weight;
    assert Tracks(all, n + 1, d) by {
      StayTracksCurrent(all, n, cur, c.size);
    }
    assert Covers(all, n + 1, d) by {
      StayCovers(all, n, init, cur);
    }
    assert Shaped(all, n + 1, num, d) by {
      assert forall j :: 0 <= j < c.group ==> d.slots[j] == c.slots[j];
    }
  }

  /** The loop state after any number of tests is consistent. */
  lemma {:induction false} RunConsistent(all: seq<WeightedTest>, n: nat, num: int)
    requires n <= |all|
    ensures Consistent(all, n, num, Run(all, n, num))
  {
    if n == 1 {
      FirstAdvanceConsistent(all, num);
    } else if n > 1 {
      var c := Run(all, n - 1, num);
      RunConsistent(all, n - 1, num);
      if Splits(all, num, c, all[n - 1].weight) {
        SplitKeepsConsistent(all, n - 1, num, c);
      } else {
        StayKeepsConsistent(all, n - 1, num, c);
      }
    }
  }

  /** `current_size` is always the weight of the current group: after `n`
      tests the current group is the last `k` of them, `k >= 1`, and the
      running weight is exactly their total (a split restarts it at the
      splitting test's weight, a stay adds the test's weight). */
  lemma CurrentSizeIsGroupWeight(all: seq<WeightedTest>, n: nat, num: int)
    requires 0 < n <= |all|
    ensures var k := |CurrentGroup(Run(all, n, num))|;
      && 1 <= k <= n
      && CurrentGroup(Run(all, n, num)) == Names(all[n - k..n])
      && Run(all, n, num).size == TotalWeight(all[n - k..n])
  {
    RunConsistent(all, n, num);
  }

  /** No test is lost, duplicated or reordered: the groups laid end to end
      are exactly the input tests in their given order. */
  lemma PartitionCovers(tests: seq<WeightedTest>, num: int)
    ensures Flatten(Partition(tests, num)) == Names(tests)
  {
    RunConsistent(tests, |tests|, num);
    assert tests[..|tests|] == tests;
  }

  /** At most `num` groups come back (one when `num <= 1`), and at least one
      when there is any test. */
  lemma PartitionBounded(tests: seq<WeightedTest>, num: int)
    ensures |Partition(tests, num)| <= MaxGroups(num)
    ensures tests != [] ==> |Partition(tests, num)| >= 1
  {
    var c := Run(tests, |tests|, num);
    RunConsistent(tests, |tests|, num);
    if tests != [] {
      var init := c.slots[..c.group];
      assert c.slots == init + [c.slots[c.group]];
      CompactSnoc(init, c.slots[c.group]);
    }
  }

  /** `compact` leaves no empty group behind. */
  lemma PartitionGroupsNonEmpty(tests: seq<WeightedTest>, num: int)
    ensures forall k :: 0 <= k < |Partition(tests, num)| ==> Partition(tests, num)[k] != []
  {
    var c := Run(tests, |tests|, num);
    RunConsistent(tests, |tests|, num);
    forall k | 0 <= k < |Partition(tests, num)|
      ensures Partition(tests, num)[k] != []
    {
      var g := Partition(tests, num)[k];
      var j :| 0 <= j < |c.slots| && c.slots[j] == Some(g);
    }
  }

  lemma {:induction false} CompactSkipsNilHead<T>(slots: seq<Option<T>>)
    requires slots != [] && slots[0].None?
    ensures |Compact(slots)| < |slots|
  {
    if |slots| > 1 {
      CompactSkipsNilHead(slots[..|slots| - 1]);
    }
  }

  /** When half of the very first test already outweighs the share, the
      loop opens group 1 before group 0 holds anything: slot 0 stays `nil`,
      `compact` drops it, and at most `num - 1` groups come back. */
  lemma HeavyFirstTestSkipsGroupZero(tests: seq<WeightedTest>, num: int)
    requires tests != []
    ensures Run(tests, |tests|, num).slots[0].None? <==> num > 1 && 0.5 * tests[0].weight > GroupSize(tests, num)
    ensures Run(tests, |tests|, num).slots[0].None? ==> |Partition(tests, num)| <= num - 1
  {
    var c := Run(tests, |tests|, num);
    RunConsistent(tests, |tests|, num);
    if c.slots[0].None? {
      CompactSkipsNilHead(c.slots);
    }
  }

  /** The balance the split rule buys. When test `m` opens a new group, the
      group it closes holds the `k` tests just before `m`, and `k` is at
      least one; that group plus half of test `m` outweighs the share, and
      unless the group holds a single test it weighs at most the share plus
      half of its own last test. */
  lemma ClosedGroupIsBalanced(all: seq<WeightedTest>, num: int, m: nat)
    requires 0 < m < |all|
    requires Run(all, m + 1, num).group > Run(all, m, num).group
    ensures var k := |CurrentGroup(Run(all, m, num))|;
      && 1 <= k <= m
      && CurrentGroup(Run(all, m, num)) == Names(all[m - k..m])
      && TotalWeight(all[m - k..m]) + 0.5 * all[m].weight > GroupSize(all, num)
      && (k >= 2 ==> TotalWeight(all[m - k..m]) <= GroupSize(all, num) + 0.5 * all[m - 1].weight)
  {
    var c := Run(all, m, num);
    var p := Run(all, m - 1, num);
    RunConsistent(all, m, num);
    RunConsistent(all, m - 1, num);
    assert Splits(all, num, c, all[m].weight);
    var k := |CurrentGroup(c)|;
    if k >= 2 {
      assert !Splits(all, num, p, all[m - 1].weight);
    }
  }

  /** A worked example: weights 10, 10, 10, 10, 60 in
      three groups (share 100/3) come out as the first three tests, then
      the fourth, then the fifth. */
  lemma FiveTestExample(tests: seq<WeightedTest>)
    requires tests == [WeightedTest("t1", 10.0), WeightedTest("t2", 10.0), WeightedTest("t3", 10.0),
                       WeightedTest("t4", 10.0), WeightedTest("t5", 60.0)]
    ensures Partition(tests, 3) == [["t1", "t2", "t3"], ["t4"], ["t5"]]
  {
    var g3 := Some(["t1", "t2", "t3"]);
    var g4, g5 := Some(["t4"]), Some(["t5"]);
    FiveTestRun(tests);
    assert [g3] == [] + [g3] && [g3, g4] == [g3] + [g4] && [g3, g4, g5] == [g3, g4] + [g5];
    CompactSnoc<seq<string>>([], g3);
    CompactSnoc([g3], g4);
    CompactSnoc([g3, g4], g5);
  }

  lemma FiveTestRun(tests: seq<WeightedTest>)
    requires tests == [WeightedTest("t1", 10.0), WeightedTest("t2", 10.0), WeightedTest("t3", 10.0),
                       WeightedTest("t4", 10.0), WeightedTest("t5", 60.0)]
    ensures Run(tests, 5, 3) == Cursor([Some(["t1", "t2", "t3"]), Some(["t4"]), Some(["t5"])], 2, 60.0)
  {
    FiveTestShare(tests);
    var g1, g2, g3 := Some(["t1"]), Some(["t1", "t2"]), Some(["t1", "t2", "t3"]);
    assert Run(tests, 1, 3) == Cursor([g1], 0, 10.0) by { PlaceAppends([], 0, "t1"); }
    assert Run(tests, 2, 3) == Cursor([g2], 0, 20.0) by {
      PlaceAppends([g1], 0, "t2");
      assert ["t1"] + ["t2"] == ["t1", "t2"];
    }
    assert Run(tests, 3, 3) == Cursor([g3], 0, 30.0) by {
      PlaceAppends([g2], 0, "t3");
      assert ["t1", "t2"] + ["t3"] == ["t1", "t2", "t3"];
    }
    assert Run(tests, 4, 3) == Cursor([g3, Some(["t4"])], 1, 10.0) by { PlaceAppends([g3], 1, "t4"); }
    PlaceAppends([g3, Some(["t4"])], 2, "t5");
  }

  lemma FiveTestShare(tests: seq<WeightedTest>)
    requires tests == [WeightedTest("t1", 10.0), WeightedTest("t2", 10.0), WeightedTest("t3", 10.0),
                       WeightedTest("t4", 10.0), WeightedTest("t5", 60.0)]
    ensures GroupSize(tests, 3) == 100.0 / 3.0
  {
    TotalWeightAppend(tests[..4], [tests[4]]);
    TotalWeightAppend(tests[..3], [tests[3]]);
    TotalWeightAppend(tests[..2], [tests[2]]);
    TotalWeightAppend(tests[..1], [tests[1]]);
    assert tests[..1] == [tests[0]] && tests[..2] == tests[..1] + [tests[1]];
    assert tests[..3] == tests[..2] + [tests[2]] && tests[..4] == tests[..3] + [tests[3]];
    assert tests == tests[..4] + [tests[4]];
  }

  /** Three tests and three groups requested, yet two groups come back: the
      first test is so heavy that it splits before group 0 holds anything,
      and the group holding it weighs far more than the share (34) plus half
      of its test. */
  lemma HeavyFirstTestExample(tests: seq<WeightedTest>)
    requires tests == [WeightedTest("a", 100.0), WeightedTest("b", 1.0), WeightedTest("c", 1.0)]
    ensures Partition(tests, 3) == [["a"], ["b", "c"]]
  {
    TotalWeightAppend(tests[..2], [tests[2]]);
    TotalWeightAppend(tests[..1], [tests[1]]);
    assert tests[..1] == [tests[0]] && tests[..2] == tests[..1] + [tests[1]];
    assert tests == tests[..2] + [tests[2]];
    assert GroupSize(tests, 3) == 34.0;
    var nil: Option<seq<string>> := None;
    assert Run(tests, 1, 3) == Cursor([nil, Some(["a"])], 1, 100.0) by { PlaceAppends([], 1, "a"); }
    assert Run(tests, 2, 3) == Cursor([nil, Some(["a"]), Some(["b"])], 2, 1.0) by {
      PlaceAppends([nil, Some(["a"])], 2, "b");
    }
    var last := [nil, Some(["a"]), Some(["b", "c"])];
    assert Run(tests, 3, 3) == Cursor(last, 2, 2.0) by {
      PlaceAppends([nil, Some(["a"]), Some(["b"])], 2, "c");
      assert ["b"] + ["c"] == ["b", "c"];
    }
    CompactSnoc<seq<string>>([], nil);
    CompactSnoc([nil], Some(["a"]));
    CompactSnoc([nil, Some(["a"])], Some(["b", "c"]));
  }

  /** Fewer groups than asked for can also come from a heavy last test:
      weights 1, 1, 1, 100 in three groups (share 103/3) give two groups,
      because the light tests never fill the first group and the heavy one
      opens only the second. */
  lemma HeavyLastTestExample(tests: seq<WeightedTest>)
    requires tests == [WeightedTest("a", 1.0), WeightedTest("b", 1.0), WeightedTest("c", 1.0),
                       WeightedTest("d", 100.0)]
    ensures Partition(tests, 3) == [["a", "b", "c"], ["d"]]
  {
    TotalWeightAppend(tests[..3], [tests[3]]);
    TotalWeightAppend(tests[..2], [tests[2]]);
    TotalWeightAppend(tests[..1], [tests[1]]);
    assert tests[..1] == [tests[0]] && tests[..2] == tests[..1] + [tests[1]];
    assert tests[..3] == tests[..2] + [tests[2]] && tests == tests[..3] + [tests[3]];
    assert GroupSize(tests, 3) == 103.0 / 3.0;
    var g1, g2, g3 := Some(["a"]), Some(["a", "b"]), Some(["a", "b", "c"]);
    assert Run(tests, 1, 3) == Cursor([g1], 0, 1.0) by { PlaceAppends([], 0, "a"); }
    assert Run(tests, 2, 3) == Cursor([g2], 0, 2.0) by {
      PlaceAppends([g1], 0, "b");
      assert ["a"] + ["b"] == ["a", "b"];
    }
    assert Run(tests, 3, 3) == Cursor([g3], 0, 3.0) by {
      PlaceAppends([g2], 0, "c");
      assert ["a", "b"] + ["c"] == ["a", "b", "c"];
    }
    assert Run(tests, 4, 3) == Cursor([g3, Some(["d"])], 1, 100.0) by {
      PlaceAppends([g3], 1, "d");
    }
    assert [g3] == [] + [g3];
    CompactSnoc<seq<string>>([], g3);
    CompactSnoc([g3], Some(["d"]));
  }
}
