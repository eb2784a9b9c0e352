/** The registry of test cases: registration, filtering, shuffling, running and restoring the order.

    Positions are kept in index vectors, so that shuffling never moves a test case or a test.  A test
    case that counts as a death test is put behind the death tests registered before it: the death tests
    form a prefix, which every shuffle maps to itself. */
module UnitTests {
  import opened Shuffling
  import opened Sharding
  import opened GlobFilter

  ghost predicate NoDuplicates<T>(s: seq<T>) {
    forall i, j :: 0 <= i < j < |s| ==> s[i] != s[j]
  }

  lemma NoDuplicatesCount<T>(s: seq<T>)
    ensures NoDuplicates(s) <==> forall x: T :: multiset(s)[x] <= 1
  {
    if s != [] {
      var front, last := s[..|s| - 1], s[|s| - 1];
      NoDuplicatesCount(front);
      assert s == front + [last];
      assert multiset(front)[last] > 0 <==> last in front;
      if !NoDuplicates(s) && NoDuplicates(front) {
        assert last in front;
        assert multiset(s)[last] >= 2;
      }
      if NoDuplicates(s) {
        forall x: T
          ensures multiset(s)[x] <= 1
        {
          assert multiset(s)[x] == multiset(front)[x] + (if x == last then 1 else 0);
        }
      }
      if NoDuplicates(front) && last !in front {
        forall i, j | 0 <= i < j < |s|
          ensures s[i] != s[j]
        {
          assert s[i] == front[i] && s[i] in front;
        }
      }
      if !NoDuplicates(front) {
        var x :| multiset(front)[x] > 1;
        assert multiset(s)[x] > 1;
      }
    }
  }

  /** `done` is the first `j` elements. */
  ghost predicate IsStart<T>(done: seq<T>, s: seq<T>, j: nat) {
    j <= |s| && done == s[..j]
  }

  lemma StartGrows<T>(done: seq<T>, s: seq<T>, j: nat)
    requires j < |s| && IsStart(done, s, j)
    ensures |done| == j && IsStart(done + [s[j]], s, j + 1)
    ensures NoDuplicates(s) ==> s[j] !in done
  {
  }

  lemma StartEnds<T>(done: seq<T>, s: seq<T>)
    requires IsStart(done, s, |s|)
    ensures done == s
  {
  }

  lemma AddNew<T>(s: seq<T>, x: T)
    requires NoDuplicates(s) && x !in s
    ensures NoDuplicates(s + [x])
  {
  }

  ghost predicate SameMembers<T>(a: seq<T>, b: seq<T>) {
    (forall i :: 0 <= i < |a| ==> a[i] in b) && (forall i :: 0 <= i < |b| ==> b[i] in a)
  }

  /** The same elements, each as often, in some order. */
  lemma SameElements<T>(s: seq<T>, r: seq<T>)
    requires multiset(s) == multiset(r) && NoDuplicates(s)
    ensures NoDuplicates(r) && SameMembers(r, s)
  {
    NoDuplicatesCount(s);
    NoDuplicatesCount(r);
    assert forall i :: 0 <= i < |r| ==> r[i] in multiset(r);
    assert forall i :: 0 <= i < |s| ==> s[i] in multiset(s);
  }

  // ---------------------------------------------------------------- tests and test cases

  lemma WholePermuted(was: seq<nat>, state: nat)
    ensures multiset(Shuffled(was, 0, |was|, state).0) == multiset(was)
  {
    hide Shuffled;
    ShuffledPermutes(was, 0, |was|, state);
    var now := Shuffled(was, 0, |was|, state).0;
    assert was[0..|was|] == was && now[0..|was|] == now;
  }

  class TestInfo {
    const testCaseName: string
    const name: string
    var isDisabled: bool
    var matchesFilter: bool
    var isInAnotherShard: bool
    var shouldRun: bool

    constructor (testCaseName: string, name: string)
      ensures this.testCaseName == testCaseName && this.name == name
      ensures !shouldRun && !isDisabled && !matchesFilter && !isInAnotherShard
    {
      this.testCaseName, this.name := testCaseName, name;
      isDisabled, matchesFilter, isInAnotherShard, shouldRun := false, false, false, false;
    }
  }

  ghost predicate SomeRuns(tests: seq<TestInfo>)
    reads tests`shouldRun
  {
    exists t :: t in tests && t.shouldRun
  }

  lemma SomeRunsStep(done: seq<TestInfo>, testInfo: TestInfo)
    ensures SomeRuns(done + [testInfo]) <==> SomeRuns(done) || testInfo.shouldRun
  {
    if SomeRuns(done) {
      var t :| t in done && t.shouldRun;
      assert t in done + [testInfo];
    }
    assert testInfo in done + [testInfo];
  }

  /** `ran` holds the tests of `done` that should run. */
  ghost predicate RanAre(ran: seq<TestInfo>, done: seq<TestInfo>)
    reads done`shouldRun
  {
    && NoDuplicates(ran)
    && (forall t :: t in ran ==> t in done && t.shouldRun)
    && (forall t :: t in done && t.shouldRun ==> t in ran)
  }

  /** Those of the tests that are among `runs`, in order. */
  ghost function Running(tests: seq<TestInfo>, runs: set<TestInfo>): seq<TestInfo> {
    if tests == [] then []
    else
      var last := tests[|tests| - 1];
      Running(tests[..|tests| - 1], runs) + (if last in runs then [last] else [])
  }

  lemma RunningGrows(done: seq<TestInfo>, testInfo: TestInfo, runs: set<TestInfo>)
    ensures Running(done + [testInfo], runs) == if testInfo in runs then Running(done, runs) + [testInfo] else Running(done, runs)
  {
    assert (done + [testInfo])[..|done|] == done;
  }

  lemma {:induction false} RunningJoined(a: seq<TestInfo>, b: seq<TestInfo>, runs: set<TestInfo>)
    ensures Running(a + b, runs) == Running(a, runs) + Running(b, runs)
  {
    if b == [] {
      assert a + b == a;
    } else {
      var front := b[..|b| - 1];
      assert (a + b)[..|a + b| - 1] == a + front;
      RunningJoined(a, front, runs);
    }
  }

  /** `runs` holds those of the tests that should run. */
  ghost predicate RunsAre(tests: seq<TestInfo>, runs: set<TestInfo>)
    reads tests`shouldRun
  {
    forall i :: 0 <= i < |tests| ==> (tests[i] in runs <==> tests[i].shouldRun)
  }

  lemma NothingRan(order: seq<TestInfo>, runs: set<TestInfo>)
    ensures IsStart([], order, 0) && RanAre([], []) && Running([], runs) == []
  {
  }

  lemma {:induction false} RunningNone(order: seq<TestInfo>, runs: set<TestInfo>)
    requires forall i :: 0 <= i < |order| ==> order[i] !in runs
    ensures Running(order, runs) == []
  {
    if order != [] {
      RunningNone(order[..|order| - 1], runs);
    }
  }

  lemma NoneRuns(tests: seq<TestInfo>, order: seq<TestInfo>, runs: set<TestInfo>)
    requires RunsAre(tests, runs) && SameMembers(order, tests) && !SomeRuns(tests)
    ensures RanAre([], tests) && Running(order, runs) == []
  {
    RunningNone(order, runs);
  }

  lemma MemberRuns(tests: seq<TestInfo>, order: seq<TestInfo>, runs: set<TestInfo>, i: nat)
    requires RunsAre(tests, runs) && SameMembers(order, tests) && i < |order|
    ensures order[i] in runs <==> order[i].shouldRun
  {
    assert order[i] in tests;
  }

  lemma RanGrows(ran: seq<TestInfo>, done: seq<TestInfo>, testInfo: TestInfo)
    requires RanAre(ran, done) && testInfo !in done
    ensures RanAre(if testInfo.shouldRun then ran + [testInfo] else ran, done + [testInfo])
  {
    if testInfo.shouldRun {
      AddNew(ran, testInfo);
    }
    hide NoDuplicates;
  }

  class TestCase {
    const name: string
    var testIndices: seq<nat>
    var testInfoList: seq<TestInfo>
    var shouldRun: bool

    ghost predicate Valid()
      reads this`testInfoList, this`testIndices
    {
      && NoDuplicates(testInfoList) && |testInfoList| < KMaxRange
      && (forall k :: 0 <= k < |testInfoList| ==> testInfoList[k].testCaseName == name)
      && multiset(testIndices) == multiset(Upto(0, |testInfoList|))
    }

    ghost predicate InOrder()
      reads this`testInfoList, this`testIndices
    {
      testIndices == Upto(0, |testInfoList|)
    }

    constructor (name: string)
      ensures this.name == name && testInfoList == [] && !shouldRun
      ensures Valid() && InOrder()
    {
      this.name := name;
      testIndices := [];
      testInfoList := [];
      shouldRun := false;
    }

    /** Only to be called while the tests are not shuffled. */
    method AddTestInfo(testInfo: TestInfo)
      requires Valid() && InOrder() && |testInfoList| + 1 < KMaxRange
      requires testInfo.testCaseName == name && testInfo !in testInfoList
      modifies this`testInfoList, this`testIndices
      ensures testInfoList == old(testInfoList) + [testInfo]
      ensures Valid() && InOrder()
    {
      testInfoList := testInfoList + [testInfo];
      testIndices := testIndices + [|testIndices|];
      assert testIndices == Upto(0, |testInfoList|);
    }

    method ShuffleTests(random: Random)
      requires Valid()
      modifies random`state, this`testIndices
      ensures (testIndices, random.state)
        == Shuffled(old(testIndices), 0, old(|testIndices|), old(random.state))
      ensures Valid()
    {
      InRange(testIndices, 0, |testInfoList|);
      ghost var was, state := testIndices, random.state;
      WholePermuted(was, state);
      hide Shuffled, Upto;
      testIndices := ShuffleRange(random, 0, |testIndices|, testIndices);
    }

    method UnshuffleTests()
      requires Valid()
      modifies this`testIndices
      ensures Valid() && InOrder()
    {
      InRange(testIndices, 0, |testInfoList|);
      var i := 0;
      while i < |testIndices|
        invariant 0 <= i <= |testIndices| == |testInfoList|
        invariant forall k :: 0 <= k < i ==> testIndices[k] == k
      {
        testIndices := testIndices[i := i];
        i := i + 1;
      }
      assert testIndices == Upto(0, |testInfoList|);
    }

    function GetMutableTestInfo(i: nat): (r: TestInfo?)
      requires Valid()
      reads this`testInfoList, this`testIndices
      ensures i < |testInfoList| ==> r == Select(testInfoList, Order())[i] && r in testInfoList
      ensures i >= |testInfoList| ==> r == null
    {
      InRange(testIndices, 0, |testInfoList|);
      if i < |testIndices| then testInfoList[testIndices[i]] else null
    }

    ghost function Order(): (at: seq<nat>)
      requires Valid()
      reads this`testInfoList, this`testIndices
      ensures |at| == |testInfoList| && forall i :: 0 <= i < |at| ==> at[i] < |testInfoList|
    {
      InRange(testIndices, 0, |testInfoList|);
      testIndices
    }

    ghost function InRunOrder(): seq<TestInfo>
      requires Valid()
      reads this`testInfoList, this`testIndices
    {
      Select(testInfoList, Order())
    }

    lemma RunOrderPermutes()
      requires Valid()
      ensures |InRunOrder()| == |testInfoList| && NoDuplicates(InRunOrder())
      ensures SameMembers(InRunOrder(), testInfoList)
    {
      var order := Select(testInfoList, Order());
      SelectRange(testInfoList, Order(), 0, |testInfoList|);
      assert testInfoList[0..|testInfoList|] == testInfoList;
      SameElements(testInfoList, order);
    }

    /** Runs the tests in their order; returns which of them ran.  A test that should not run does
        nothing, and neither does a test case.  `runs` names the tests that should run. */
    method Run(ghost runs: set<TestInfo>) returns (ran: seq<TestInfo>)
      requires Valid() && RunsAre(testInfoList, runs)
      requires shouldRun <==> SomeRuns(testInfoList)
      ensures RanAre(ran, testInfoList) && Valid() && ran == Running(InRunOrder(), runs)
    {
      hide *;
      ghost var order, done := InRunOrder(), [];
      RunOrderPermutes();
      ran := [];
      if !shouldRun {
        NoneRuns(testInfoList, order, runs);
        return;
      }
      NothingRan(order, runs);
      var i := 0;
      while i < |testInfoList|
        invariant 0 <= i <= |testInfoList| && IsStart(done, order, i)
        invariant RanAre(ran, done) && ran == Running(done, runs)
      {
        var testInfo := TestAt(i);
        StartGrows(done, order, i);
        RanGrows(ran, done, testInfo);
        MemberRuns(testInfoList, order, runs, i);
        RunningGrows(done, testInfo, runs);
        if testInfo.shouldRun {
          ran := ran + [testInfo];
        }
        done := done + [testInfo];
        i := i + 1;
      }
      StartEnds(done, order);
      RanSame(ran, order, testInfoList);
    }

    method TestAt(i: nat) returns (r: TestInfo)
      requires Valid() && i < |testInfoList|
      ensures |InRunOrder()| == |testInfoList| && r == InRunOrder()[i]
    {
      r := GetMutableTestInfo(i);
    }
  }

  lemma RanSame(ran: seq<TestInfo>, order: seq<TestInfo>, tests: seq<TestInfo>)
    requires RanAre(ran, order) && SameMembers(order, tests)
    ensures RanAre(ran, tests)
  {
  }

  // ---------------------------------------------------------------- what the filter decides

  datatype Settings = Settings(filter: string, alsoRunDisabledTests: bool, shard: Shard)

  ghost predicate IsRunnable(settings: Settings, testCaseName: string, testName: string) {
    && (settings.alsoRunDisabledTests || !(IsDisabledName(testCaseName) || IsDisabledName(testName)))
    && Selects(settings.filter, FullName(testCaseName, testName))
  }

  ghost function RunnableIn(settings: Settings, testCaseName: string, tests: seq<TestInfo>): (r: seq<bool>)
    ensures |r| == |tests|
  {
    if tests == [] then []
    else
      RunnableIn(settings, testCaseName, tests[..|tests| - 1])
      + [IsRunnable(settings, testCaseName, tests[|tests| - 1].name)]
  }

  /** Which tests are runnable, for all test cases in the order of registration. */
  ghost function RunnableTests(settings: Settings, testCases: seq<TestCase>): seq<bool>
    reads testCases`testInfoList
  {
    if testCases == [] then []
    else
      var last := testCases[|testCases| - 1];
      RunnableTests(settings, testCases[..|testCases| - 1]) + RunnableIn(settings, last.name, last.testInfoList)
  }

  /** The four marks of a test, given how many runnable tests came before it. */
  ghost predicate Judged(testInfo: TestInfo, settings: Settings, testCaseName: string, before: nat)
    requires Usable(settings.shard)
    reads testInfo`isDisabled, testInfo`matchesFilter, testInfo`isInAnotherShard, testInfo`shouldRun
  {
    && testInfo.isDisabled == (IsDisabledName(testCaseName) || IsDisabledName(testInfo.name))
    && testInfo.matchesFilter == Selects(settings.filter, FullName(testCaseName, testInfo.name))
    && testInfo.isInAnotherShard == !OnShard(settings.shard, before)
    && testInfo.shouldRun == (IsRunnable(settings, testCaseName, testInfo.name) && OnShard(settings.shard, before))
  }

  method FilterTest(testInfo: TestInfo, settings: Settings, testCaseName: string, numRunnableTests: nat)
    returns (isRunnable: bool, isSelected: bool)
    requires Usable(settings.shard)
    modifies testInfo`isDisabled, testInfo`matchesFilter, testInfo`isInAnotherShard, testInfo`shouldRun
    ensures Judged(testInfo, settings, testCaseName, numRunnableTests)
    ensures isRunnable == IsRunnable(settings, testCaseName, testInfo.name)
    ensures isSelected == testInfo.shouldRun
  {
    DisabledNames(testCaseName);
    DisabledNames(testInfo.name);
    var caseDisabled := MatchesFilter(testCaseName, KDisableTestFilter);
    var testDisabled := MatchesFilter(testInfo.name, KDisableTestFilter);
    testInfo.isDisabled := caseDisabled || testDisabled;
    testInfo.matchesFilter := FilterMatchesTest(settings.filter, testCaseName, testInfo.name);
    isRunnable := (settings.alsoRunDisabledTests || !testInfo.isDisabled) && testInfo.matchesFilter;
    testInfo.isInAnotherShard := settings.shard.Shard?
      && !ShouldRunTestOnShard(settings.shard.total, settings.shard.index, numRunnableTests);
    isSelected := isRunnable && !testInfo.isInAnotherShard;
    testInfo.shouldRun := isSelected;
  }

  /** How many runnable tests come before position `j`. */
  function Before(runnable: seq<bool>, before: nat, j: nat): nat
    requires j <= |runnable|
  {
    before + Count(runnable[..j])
  }

  /** The first tests of a test case are judged. */
  ghost predicate AllJudged(tests: seq<TestInfo>, settings: Settings, testCaseName: string,
                            runnable: seq<bool>, before: nat)
    requires Usable(settings.shard) && |tests| <= |runnable|
    reads tests`isDisabled, tests`matchesFilter, tests`isInAnotherShard, tests`shouldRun
  {
    forall j :: 0 <= j < |tests| ==> Judged(tests[j], settings, testCaseName, Before(runnable, before, j))
  }

  lemma JudgedStep(done: seq<TestInfo>, testInfo: TestInfo, settings: Settings, testCaseName: string,
                   runnable: seq<bool>, before: nat)
    requires Usable(settings.shard) && |done| < |runnable|
    requires AllJudged(done, settings, testCaseName, runnable, before)
    requires Judged(testInfo, settings, testCaseName, Before(runnable, before, |done|))
    ensures AllJudged(done + [testInfo], settings, testCaseName, runnable, before)
  {
    hide Judged, Before;
  }

  lemma NothingJudged(tests: seq<TestInfo>, settings: Settings, testCaseName: string, runnable: seq<bool>, before: nat)
    requires Usable(settings.shard)
    ensures !SomeRuns([]) && AllJudged([], settings, testCaseName, runnable, before) && IsStart([], tests, 0)
  {
  }

  /** The tests of one test case. */
  method FilterTestCase(testCase: TestCase, settings: Settings, runnableBefore: nat, selectedBefore: nat)
    returns (numRunnableTests: nat, numSelectedTests: nat)
    requires Usable(settings.shard) && NoDuplicates(testCase.testInfoList)
    modifies testCase`shouldRun
    modifies testCase.testInfoList`isDisabled, testCase.testInfoList`matchesFilter, testCase.testInfoList`isInAnotherShard, testCase.testInfoList`shouldRun
    ensures var runnable := RunnableIn(settings, testCase.name, testCase.testInfoList);
      && numRunnableTests == runnableBefore + Count(runnable)
      && numSelectedTests == selectedBefore + Count(Selection(runnable, settings.shard, runnableBefore))
      && AllJudged(testCase.testInfoList, settings, testCase.name, runnable, runnableBefore)
    ensures testCase.shouldRun <==> SomeRuns(testCase.testInfoList)
  {
    hide *;
    ghost var tests := testCase.testInfoList;
    ghost var runnable := RunnableIn(settings, testCase.name, tests);
    numRunnableTests, numSelectedTests := runnableBefore, selectedBefore;
    testCase.shouldRun := false;
    var j := 0;
    ghost var done := [];
    CountStart(runnable, settings.shard, runnableBefore);
    NothingJudged(tests, settings, testCase.name, runnable, runnableBefore);
    while j < |testCase.testInfoList|
      invariant 0 <= j <= |tests| && testCase.testInfoList == tests && IsStart(done, tests, j) && |done| == j
      invariant numRunnableTests == Before(runnable, runnableBefore, j)
      invariant numSelectedTests == selectedBefore + SelectedBefore(runnable, settings.shard, runnableBefore, j)
      invariant AllJudged(done, settings, testCase.name, runnable, runnableBefore)
      invariant testCase.shouldRun <==> SomeRuns(done)
    {
      var testInfo := testCase.testInfoList[j];
      StartGrows(done, tests, j);
      var isRunnable, isSelected := FilterTest(testInfo, settings, testCase.name, numRunnableTests);
      RunnableAt(settings, testCase.name, tests, j);
      JudgedRuns(testInfo, settings, testCase.name, numRunnableTests);
      CountStep(runnable, settings.shard, runnableBefore, j);
      SomeRunsStep(done, testInfo);
      JudgedStep(done, testInfo, settings, testCase.name, runnable, runnableBefore);
      numRunnableTests := numRunnableTests + (if isRunnable then 1 else 0);
      numSelectedTests := numSelectedTests + (if isSelected then 1 else 0);
      testCase.shouldRun := testCase.shouldRun || isSelected;
      done := done + [testInfo];
      j := j + 1;
    }
    CountEnd(runnable, settings.shard, runnableBefore);
    StartEnds(done, tests);
  }

  lemma {:induction false} RunnableAt(settings: Settings, testCaseName: string, tests: seq<TestInfo>, j: nat)
    requires j < |tests|
    ensures RunnableIn(settings, testCaseName, tests)[j] == IsRunnable(settings, testCaseName, tests[j].name)
  {
    if j < |tests| - 1 {
      RunnableAt(settings, testCaseName, tests[..|tests| - 1], j);
    }
  }

  lemma JudgedRuns(testInfo: TestInfo, settings: Settings, testCaseName: string, before: nat)
    requires Usable(settings.shard) && Judged(testInfo, settings, testCaseName, before)
    ensures testInfo.shouldRun == (IsRunnable(settings, testCaseName, testInfo.name) && OnShard(settings.shard, before))
  {
  }

  function SelectedBefore(runnable: seq<bool>, shard: Shard, before: nat, j: nat): nat
    requires j <= |runnable| && Usable(shard)
  {
    Count(Selection(runnable[..j], shard, before))
  }

  lemma CountStart(runnable: seq<bool>, shard: Shard, before: nat)
    requires Usable(shard)
    ensures Before(runnable, before, 0) == before && SelectedBefore(runnable, shard, before, 0) == 0
  {
  }

  lemma CountEnd(runnable: seq<bool>, shard: Shard, before: nat)
    requires Usable(shard)
    ensures Before(runnable, before, |runnable|) == before + Count(runnable)
    ensures SelectedBefore(runnable, shard, before, |runnable|) == Count(Selection(runnable, shard, before))
  {
    assert runnable[..|runnable|] == runnable;
  }

  lemma CountStep(runnable: seq<bool>, shard: Shard, before: nat, j: nat)
    requires j < |runnable| && Usable(shard)
    ensures Before(runnable, before, j + 1) == Before(runnable, before, j) + (if runnable[j] then 1 else 0)
    ensures SelectedBefore(runnable, shard, before, j + 1) == SelectedBefore(runnable, shard, before, j)
      + (if runnable[j] && OnShard(shard, Before(runnable, before, j)) then 1 else 0)
  {
    var a, b := runnable[..j], runnable[..j + 1];
    assert b[..|b| - 1] == a;
    var sa, sb := Selection(a, shard, before), Selection(b, shard, before);
    assert sb[..|sb| - 1] == sa;
  }
}
