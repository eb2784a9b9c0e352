/** The unit test object: all registered test cases and the order in which they run.

    Whatever is registered, shuffled, filtered and run, death tests come first and every test that should
    run is run once; unshuffling restores the order of registration. */
module UnitTestImpls {
  import opened Shuffling
  import opened Sharding
  import opened GlobFilter
  import opened UnitTests

  const KMaxRandomSeed: nat := 99999

  // ---------------------------------------------------------------- the list of test cases

  /** Different test cases have different names. */
  ghost predicate Apart(testCases: seq<TestCase>) {
    forall i, j :: 0 <= i < j < |testCases| ==> testCases[i].name != testCases[j].name
  }

  /** The death tests are the first `n` test cases. */
  ghost predicate DeathTestsFirst(testCases: seq<TestCase>, n: nat) {
    n <= |testCases| && forall i :: 0 <= i < |testCases| ==> (i < n <==> IsDeathTestCase(testCases[i].name))
  }

  ghost predicate AllValid(testCases: seq<TestCase>)
    reads testCases`testInfoList, testCases`testIndices
  {
    forall c :: c in testCases ==> c.Valid()
  }

  ghost predicate AllInOrder(testCases: seq<TestCase>)
    reads testCases`testInfoList, testCases`testIndices
  {
    forall c :: c in testCases ==> c.InOrder()
  }

  /** The tests of all the test cases. */
  ghost function TestSet(testCases: seq<TestCase>): (tests: set<TestInfo>)
    reads testCases`testInfoList
    ensures forall i, t :: 0 <= i < |testCases| && t in testCases[i].testInfoList ==> t in tests
  {
    set c, t | c in testCases && t in c.testInfoList :: t
  }

  function InsertAt<T>(s: seq<T>, k: nat, x: T): seq<T>
    requires k <= |s|
  {
    s[..k] + [x] + s[k..]
  }

  lemma InsertKeeps(testCases: seq<TestCase>, n: nat, c: TestCase)
    requires Apart(testCases) && DeathTestsFirst(testCases, n)
    requires forall d :: d in testCases ==> d.name != c.name
    ensures var death := IsDeathTestCase(c.name);
      var r := InsertAt(testCases, if death then n else |testCases|, c);
      Apart(r) && DeathTestsFirst(r, if death then n + 1 else n)
  {
    hide IsDeathTestCase;
    var death := IsDeathTestCase(c.name);
    var k := if death then n else |testCases|;
    var r := InsertAt(testCases, k, c);
    forall i | 0 <= i < |r|
      ensures r[i] == if i < k then testCases[i] else if i == k then c else testCases[i - 1]
    {
    }
  }

  lemma InsertMembers(testCases: seq<TestCase>, k: nat, c: TestCase)
    requires k <= |testCases|
    ensures forall d :: d in InsertAt(testCases, k, c) <==> d == c || d in testCases
  {
    var r := InsertAt(testCases, k, c);
    assert testCases == testCases[..k] + testCases[k..];
    forall d
      ensures d in r <==> d == c || d in testCases
    {
      assert d in r <==> d in testCases[..k] || d == c || d in testCases[k..];
      assert d in testCases <==> d in testCases[..k] || d in testCases[k..];
    }
  }

  lemma InsertedAllGood(testCases: seq<TestCase>, k: nat, c: TestCase)
    requires k <= |testCases| && AllValid(testCases) && AllInOrder(testCases) && c.Valid() && c.InOrder()
    ensures AllValid(InsertAt(testCases, k, c)) && AllInOrder(InsertAt(testCases, k, c))
  {
    InsertMembers(testCases, k, c);
    hide InsertAt;
  }

  /** Where a new test case goes: behind the last death test, or at the end. */
  ghost function Inserted(testCases: seq<TestCase>, last: int, c: TestCase): seq<TestCase>
    requires -1 <= last < |testCases|
  {
    InsertAt(testCases, if IsDeathTestCase(c.name) then last + 1 else |testCases|, c)
  }

  ghost function LastAfter(last: int, c: TestCase): int {
    if IsDeathTestCase(c.name) then last + 1 else last
  }

  lemma InsertedIs(testCases: seq<TestCase>, last: int, c: TestCase)
    requires -1 <= last < |testCases|
    ensures Inserted(testCases, last, c) ==
      if IsDeathTestCase(c.name) then testCases[..last + 1] + [c] + testCases[last + 1..] else testCases + [c]
    ensures LastAfter(last, c) == if IsDeathTestCase(c.name) then last + 1 else last
  {
    assert testCases[..|testCases|] == testCases && testCases[|testCases|..] == [];
  }

  ghost predicate AreGood(testCases: seq<TestCase>, last: int)
    requires -1 <= last < |testCases|
    reads testCases`testInfoList, testCases`testIndices
  {
    && Apart(testCases) && DeathTestsFirst(testCases, last + 1)
    && AllValid(testCases) && AllInOrder(testCases)
  }

  lemma InsertIsGood(testCases: seq<TestCase>, last: int, c: TestCase)
    requires -1 <= last < |testCases| && AreGood(testCases, last)
    requires c.Valid() && c.InOrder()
    requires forall d :: d in testCases ==> d.name != c.name
    ensures var now := Inserted(testCases, last, c);
      && |now| == |testCases| + 1 && c in now && -1 <= LastAfter(last, c) < |now|
      && AreGood(now, LastAfter(last, c))
  {
    var k := if IsDeathTestCase(c.name) then last + 1 else |testCases|;
    hide IsDeathTestCase, Apart, DeathTestsFirst, AllValid, AllInOrder, TestCase.Valid, TestCase.InOrder;
    InsertKeeps(testCases, last + 1, c);
    InsertMembers(testCases, k, c);
    InsertedAllGood(testCases, k, c);
  }

  // ---------------------------------------------------------------- arrangements

  /** The order of the test cases, the order of the tests in each, and the state of the generator. */
  datatype Arrangement = Arrangement(cases: seq<nat>, tests: seq<seq<nat>>, state: nat)

  /** The tests of one test case after the other are shuffled. */
  function AllShuffled(orders: seq<seq<nat>>, state: nat): (r: (seq<seq<nat>>, nat))
    ensures |r.0| == |orders|
  {
    if orders == [] then ([], state)
    else
      var (front, middle) := AllShuffled(orders[..|orders| - 1], state);
      var last := orders[|orders| - 1];
      var (shuffled, end) := Shuffled(last, 0, |last|, middle);
      (front + [shuffled], end)
  }

  /** The death tests, which are `n`, then the others, then the tests in each test case. */
  function Arranged(a: Arrangement, n: nat): (r: Arrangement)
    requires n <= |a.cases|
    ensures |r.cases| == |a.cases|
  {
    var (cases, middle) := CasesShuffled(a.cases, n, a.state);
    var (tests, end) := AllShuffled(a.tests, middle);
    Arrangement(cases, tests, end)
  }

  function CasesShuffled(cases: seq<nat>, n: nat, state: nat): (r: (seq<nat>, nat))
    requires n <= |cases|
    ensures |r.0| == |cases|
  {
    var (half, middle) := Shuffled(cases, 0, n, state);
    Shuffled(half, n, |cases| - n, middle)
  }

  /** The order of registration. */
  function InitialOrders(lists: seq<seq<TestInfo>>): (r: seq<seq<nat>>)
    ensures |r| == |lists| && forall i :: 0 <= i < |r| ==> r[i] == Upto(0, |lists[i]|)
  {
    if lists == [] then [] else InitialOrders(lists[..|lists| - 1]) + [Upto(0, |lists[|lists| - 1]|)]
  }

  function Initial(lists: seq<seq<TestInfo>>, state: nat): Arrangement {
    Arrangement(Upto(0, |lists|), InitialOrders(lists), state)
  }

  /** Which tests run under an arrangement, in order, for the first `n` places. */
  ghost function Plan(lists: seq<seq<TestInfo>>, a: Arrangement, runs: set<TestInfo>, n: nat): seq<TestInfo>
    requires n <= |a.cases|
  {
    if n == 0 then [] else Plan(lists, a, runs, n - 1) + CasePlan(lists, a, runs, a.cases[n - 1])
  }

  ghost function CasePlan(lists: seq<seq<TestInfo>>, a: Arrangement, runs: set<TestInfo>, k: nat): seq<TestInfo> {
    if k < |lists| && k < |a.tests| && AllBelow(a.tests[k], |lists[k]|) then Running(Select(lists[k], a.tests[k]), runs) else []
  }

  lemma {:induction false} PlanIgnoresState(lists: seq<seq<TestInfo>>, a: Arrangement, b: Arrangement, runs: set<TestInfo>, n: nat)
    requires n <= |a.cases| && a.cases == b.cases && a.tests == b.tests
    ensures Plan(lists, a, runs, n) == Plan(lists, b, runs, n)
  {
    if n > 0 {
      PlanIgnoresState(lists, a, b, runs, n - 1);
    }
  }

  /** What an iteration runs, given the order of registration, the tests that should run, the seed and the
      number of death tests. */
  ghost function IterationPlan(lists: seq<seq<TestInfo>>, runs: set<TestInfo>, shuffle: bool, seed: nat, n: nat): seq<TestInfo>
    requires n <= |lists|
  {
    if shuffle then Plan(lists, Arranged(Initial(lists, seed), n), runs, |lists|)
    else Plan(lists, Initial(lists, 0), runs, |lists|)
  }

  ghost function Lists(testCases: seq<TestCase>): (r: seq<seq<TestInfo>>)
    reads testCases`testInfoList
    ensures |r| == |testCases| && forall i :: 0 <= i < |r| ==> r[i] == testCases[i].testInfoList
  {
    if testCases == [] then []
    else Lists(testCases[..|testCases| - 1]) + [testCases[|testCases| - 1].testInfoList]
  }

  ghost function Orders(testCases: seq<TestCase>): (r: seq<seq<nat>>)
    reads testCases`testIndices
    ensures |r| == |testCases| && forall i :: 0 <= i < |r| ==> r[i] == testCases[i].testIndices
  {
    if testCases == [] then []
    else Orders(testCases[..|testCases| - 1]) + [testCases[|testCases| - 1].testIndices]
  }

  // ---------------------------------------------------------------- the unit test

  class UnitTestImpl {
    const random: Random
    var testCaseIndices: seq<nat>
    var testCases: seq<TestCase>
    var lastDeathTestCase: int

    /** What no shuffle changes: names, vectors and tests are kept apart, and death tests come first. */
    ghost predicate Registered()
      reads this`testCases, this`lastDeathTestCase, testCases`testInfoList, testCases`testIndices
    {
      && -1 <= lastDeathTestCase < |testCases| < KMaxRange
      && Apart(testCases) && DeathTestsFirst(testCases, lastDeathTestCase + 1)
      && AllValid(testCases)
    }

    /** The positions are permuted, the death tests among themselves. */
    ghost predicate Permuted()
      requires -1 <= lastDeathTestCase < |testCases|
      reads this`testCases, this`lastDeathTestCase, this`testCaseIndices
    {
      var n := lastDeathTestCase + 1;
      && |testCaseIndices| == |testCases|
      && multiset(testCaseIndices[..n]) == multiset(Upto(0, n))
      && multiset(testCaseIndices[n..]) == multiset(Upto(n, |testCases|))
    }

    ghost predicate Valid()
      reads this`testCases, this`lastDeathTestCase, this`testCaseIndices, testCases`testInfoList, testCases`testIndices
    {
      Registered() && Permuted()
    }

    ghost predicate Unshuffled()
      reads this`testCases, this`lastDeathTestCase, this`testCaseIndices, testCases`testInfoList, testCases`testIndices
    {
      testCaseIndices == Upto(0, |testCases|) && AllInOrder(testCases)
    }

    constructor ()
      ensures Valid() && Unshuffled() && testCases == []
      ensures fresh(random)
    {
      random := new Random(0);
      testCaseIndices := [];
      testCases := [];
      lastDeathTestCase := -1;
    }

    lemma IdentityIsPermuted()
      requires -1 <= lastDeathTestCase < |testCases| && testCaseIndices == Upto(0, |testCases|)
      ensures Permuted()
    {
      var n := lastDeathTestCase + 1;
      assert testCaseIndices[..n] == Upto(0, n);
      assert testCaseIndices[n..] == Upto(n, |testCases|);
    }

    /** The test case with the name, searched from the last one back. */
    method FindTestCase(name: string) returns (r: TestCase?)
      ensures r != null ==> r in testCases && r.name == name
      ensures r == null ==> forall c :: c in testCases ==> c.name != name
    {
      var i := |testCases|;
      while i > 0
        invariant 0 <= i <= |testCases|
        invariant forall k :: i <= k < |testCases| ==> testCases[k].name != name
      {
        i := i - 1;
        if testCases[i].name == name {
          return testCases[i];
        }
      }
      return null;
    }

    /** Finds the test case or registers a new one.  Only to be called while nothing is shuffled. */
    method GetTestCase(name: string) returns (r: TestCase)
      requires Valid() && Unshuffled() && |testCases| + 1 < KMaxRange
      modifies this`testCases, this`lastDeathTestCase, this`testCaseIndices
      ensures Valid() && Unshuffled()
      ensures r in testCases && r.name == name
      ensures r in old(testCases) ==>
        testCases == old(testCases) && lastDeathTestCase == old(lastDeathTestCase)
      ensures r !in old(testCases) ==>
        && fresh(r) && r.testInfoList == []
        && (forall c :: c in old(testCases) ==> c.name != name)
        && testCases == Inserted(old(testCases), old(lastDeathTestCase), r)
        && lastDeathTestCase == LastAfter(old(lastDeathTestCase), r)
    {
      var found := FindTestCase(name);
      if found != null {
        r := found;
      } else {
        r := new TestCase(name);
        InsertTestCase(r);
      }
    }

    method InsertTestCase(c: TestCase)
      requires Valid() && Unshuffled() && |testCases| + 1 < KMaxRange
      requires c.Valid() && c.InOrder()
      requires forall d :: d in testCases ==> d.name != c.name
      modifies this`testCases, this`lastDeathTestCase, this`testCaseIndices
      ensures Valid() && Unshuffled() && c in testCases
      ensures testCases == Inserted(old(testCases), old(lastDeathTestCase), c)
      ensures lastDeathTestCase == LastAfter(old(lastDeathTestCase), c)
    {
      hide *;
      ghost var was, last := testCases, lastDeathTestCase;
      var death := MatchesFilter(c.name, KDeathTestCaseFilter);
      ValidIsGood();
      DeathTestNames(c.name);
      InsertIsGood(was, last, c);
      InsertedIs(was, last, c);
      if death {
        lastDeathTestCase := lastDeathTestCase + 1;
        testCases := testCases[..lastDeathTestCase] + [c] + testCases[lastDeathTestCase..];
      } else {
        testCases := testCases + [c];
      }
      AppendIndex();
    }

    lemma ValidIsGood()
      requires Valid() && Unshuffled()
      ensures -1 <= lastDeathTestCase < |testCases| && AreGood(testCases, lastDeathTestCase)
      ensures testCaseIndices == Upto(0, |testCases|)
    {
    }

    method AppendIndex()
      requires -1 <= lastDeathTestCase < |testCases| < KMaxRange && testCases != []
      requires AreGood(testCases, lastDeathTestCase)
      requires testCaseIndices == Upto(0, |testCases| - 1)
      modifies this`testCaseIndices
      ensures Valid() && Unshuffled()
    {
      assert |testCaseIndices| == |testCases| - 1;
      UptoGrows(|testCases| - 1);
      hide *;
      testCaseIndices := testCaseIndices + [|testCaseIndices|];
      FoundValid();
    }

    lemma FoundValid()
      requires -1 <= lastDeathTestCase < |testCases| < KMaxRange
      requires AreGood(testCases, lastDeathTestCase)
      requires testCaseIndices == Upto(0, |testCases|)
      ensures Valid() && Unshuffled()
    {
      IdentityIsPermuted();
    }

    // -------------------------------------------------------------- registering a test

    /** Registers a test with its test case.  Only to be called while nothing is shuffled. */
    method AddTestInfo(testInfo: TestInfo) returns (testCase: TestCase)
      requires Valid() && Unshuffled() && |testCases| + 1 < KMaxRange
      requires forall c :: c in testCases ==> testInfo !in c.testInfoList && |c.testInfoList| + 1 < KMaxRange
      modifies this`testCases, this`lastDeathTestCase, this`testCaseIndices, testCases`testInfoList, testCases`testIndices
      ensures Valid() && Unshuffled()
      ensures testCase in testCases && testCase.name == testInfo.testCaseName
      ensures testCase in old(testCases) ==>
        testCases == old(testCases) && testCase.testInfoList == old(testCase.testInfoList) + [testInfo]
      ensures testCase !in old(testCases) ==>
        && (forall c :: c in old(testCases) ==> c.name != testInfo.testCaseName)
        && testCases == Inserted(old(testCases), old(lastDeathTestCase), testCase)
        && testCase.testInfoList == [testInfo]
      ensures forall c :: c in old(testCases) && c.name != testInfo.testCaseName ==>
        c in testCases && c.testInfoList == old(c.testInfoList)
    {
      ghost var was := testCases;
      testCase := GetTestCase(testInfo.testCaseName);
      AppendTest(testCase, testInfo);
    }

    method AppendTest(c: TestCase, testInfo: TestInfo)
      requires Valid() && Unshuffled() && c in testCases
      requires testInfo.testCaseName == c.name && testInfo !in c.testInfoList && |c.testInfoList| + 1 < KMaxRange
      modifies c`testInfoList, c`testIndices
      ensures Valid() && Unshuffled()
      ensures c.testInfoList == old(c.testInfoList) + [testInfo]
    {
      OthersApart(testCases, c);
      assert c.Valid() && c.InOrder();
      hide Apart, DeathTestsFirst, TestCase.Valid, TestCase.InOrder, Upto, UnitTestImpl.Permuted;
      c.AddTestInfo(testInfo);
    }

    // -------------------------------------------------------------- shuffling

    ghost function Current(): Arrangement
      reads this`testCases, this`testCaseIndices, random`state, testCases`testIndices
    {
      Arrangement(testCaseIndices, Orders(testCases), random.state)
    }

    /** Death tests are shuffled among themselves, then the others among themselves, then the tests of
        each test case. */
    method ShuffleTests()
      requires Valid()
      modifies random`state, this`testCaseIndices, testCases`testIndices
      ensures Valid() && 0 <= lastDeathTestCase + 1 <= old(|testCaseIndices|)
      ensures Current() == Arranged(old(Current()), lastDeathTestCase + 1)
    {
      hide *;
      ghost var was, n := Current(), lastDeathTestCase + 1;
      ValidIs();
      CurrentIs();
      ShuffleTestCases();
      ghost var middle := random.state;
      ShuffleInside();
      NowShuffled();
      CurrentIs();
      ArrangedIs(was, n, Current(), middle);
    }

    lemma CurrentIs()
      ensures Current() == Arrangement(testCaseIndices, Orders(testCases), random.state)
    {
    }

    /** The tests in each test case. */
    method ShuffleInside()
      requires Registered()
      modifies random`state, testCases`testIndices
      ensures Registered()
      ensures (Orders(testCases), random.state) == AllShuffled(old(Orders(testCases)), old(random.state))
    {
      hide *;
      ghost var cases, olds, done, now := testCases, Orders(testCases), [], [];
      ApartOf();
      NothingShuffled(olds, random.state);
      var i := 0;
      while i < |testCases|
        invariant 0 <= i <= |cases| == |olds| && testCases == cases && Registered() && |now| == i
        invariant IsStart(done, olds, i) && (now, random.state) == AllShuffled(done, old(random.state))
        invariant forall k :: 0 <= k < i ==> cases[k].testIndices == now[k]
        invariant forall k :: i <= k < |cases| ==> cases[k].testIndices == olds[k]
      {
        var c := testCases[i];
        ghost var order, state := c.testIndices, random.state;
        StartGrows(done, olds, i);
        PlacesDiffer(cases, i);
        ShuffleOne(c);
        OneMoreShuffled(done, order, old(random.state), now, state);
        done := done + [order];
        now := now + [c.testIndices];
        i := i + 1;
      }
      StartEnds(done, olds);
      assert Orders(testCases) == now;
    }

    lemma ApartOf()
      requires Registered()
      ensures Apart(testCases) && -1 <= lastDeathTestCase < |testCases|
    {
    }

    lemma NowShuffled()
      requires Registered() && Permuted()
      ensures Valid()
    {
    }

    method ShuffleOne(c: TestCase)
      requires Registered() && c in testCases
      modifies random`state, c`testIndices
      ensures Registered()
      ensures (c.testIndices, random.state) == Shuffled(old(c.testIndices), 0, old(|c.testIndices|), old(random.state))
    {
      OthersApart(testCases, c);
      hide Apart, DeathTestsFirst, TestCase.Valid, Shuffled;
      c.ShuffleTests(random);
    }

    method ShuffleTestCases()
      requires Registered() && Permuted()
      modifies random`state, this`testCaseIndices
      ensures Registered() && Permuted()
      ensures 0 <= lastDeathTestCase + 1 <= |old(testCaseIndices)|
      ensures (testCaseIndices, random.state) == CasesShuffled(old(testCaseIndices), lastDeathTestCase + 1, old(random.state))
    {
      hide *;
      var n := lastDeathTestCase + 1;
      ghost var was, state := testCaseIndices, random.state;
      SplitOf();
      CasesShuffledIs(was, n, state);
      ShufflePart(0, n);
      ghost var half := testCaseIndices;
      FirstShuffled(was, half, n);
      ShufflePart(n, |testCases|);
      SecondShuffled(half, testCaseIndices, n);
      SplitIsPermuted();
    }

    lemma SplitOf()
      requires Registered() && Permuted()
      ensures 0 <= lastDeathTestCase + 1 <= |testCaseIndices| == |testCases| < KMaxRange
      ensures AreSplit(testCaseIndices, lastDeathTestCase + 1, |testCaseIndices|)
    {
    }

    method ShufflePart(begin: nat, end: nat)
      requires begin <= end <= |testCaseIndices| <= KMaxRange
      modifies random`state, this`testCaseIndices
      ensures |testCaseIndices| == old(|testCaseIndices|)
      ensures PermutesRange(old(testCaseIndices), testCaseIndices, begin, end)
      ensures (testCaseIndices, random.state) == Shuffled(old(testCaseIndices), begin, end - begin, old(random.state))
    {
      hide *;
      ghost var was, state := testCaseIndices, random.state;
      ShuffledPermutes(was, begin, end - begin, state);
      testCaseIndices := ShuffleRange(random, begin, end, testCaseIndices);
    }

    lemma SplitIsPermuted()
      requires -1 <= lastDeathTestCase < |testCases|
      requires AreSplit(testCaseIndices, lastDeathTestCase + 1, |testCases|)
      ensures Permuted()
    {
    }

    method UnshuffleTests()
      requires Valid()
      modifies this`testCaseIndices, testCases`testIndices
      ensures Valid() && Unshuffled()
    {
      ghost var done, cases := [], testCases;
      assert IsStart(done, cases, 0) && Registered() && AllInOrder(done) && Apart(cases);
      assert |cases| == |testCaseIndices| && IsIdentity(testCaseIndices, 0);
      hide *;
      var i := 0;
      while i < |testCases|
        invariant 0 <= i <= |cases| == |testCaseIndices| && testCases == cases
        invariant Registered() && AllInOrder(done) && IsStart(done, cases, i)
        invariant IsIdentity(testCaseIndices, i)
      {
        var c := testCases[i];
        StartGrows(done, cases, i);
        StartWithin(done, cases, i);
        UnshuffleOne(done, c);
        IdentityGrows(testCaseIndices, i);
        testCaseIndices := testCaseIndices[i := i];
        done := done + [c];
        i := i + 1;
      }
      StartEnds(done, cases);
      IsUpto(testCaseIndices);
      NowUnshuffled();
    }

    lemma NowUnshuffled()
      requires Registered() && AllInOrder(testCases) && testCaseIndices == Upto(0, |testCases|)
      ensures Valid() && Unshuffled()
    {
      IdentityIsPermuted();
    }

    method UnshuffleOne(ghost done: seq<TestCase>, c: TestCase)
      requires Registered() && c in testCases && AllInOrder(done)
      requires forall d :: d in done ==> d in testCases && d != c
      modifies c`testIndices
      ensures Registered() && AllInOrder(done + [c])
    {
      OthersApart(testCases, c);
      hide Apart, DeathTestsFirst, TestCase.Valid, TestCase.InOrder;
      c.UnshuffleTests();
    }

    // -------------------------------------------------------------- filtering

    /** Marks every test, test case by test case; returns how many should run. */
    method FilterTests(settings: Settings) returns (numSelectedTests: nat)
      requires Registered() && Usable(settings.shard)
      modifies testCases`shouldRun
      modifies TestSet(testCases)`isDisabled, TestSet(testCases)`matchesFilter, TestSet(testCases)`isInAnotherShard, TestSet(testCases)`shouldRun
      ensures CasesJudged(testCases, settings)
      ensures numSelectedTests == Count(Selection(RunnableTests(settings, testCases), settings.shard, 0))
    {
      hide *;
      ghost var done, cases := [], testCases;
      RegisteredIs();
      NothingFiltered(settings);
      var numRunnableTests := 0;
      numSelectedTests := 0;
      var i := 0;
      while i < |testCases|
        invariant 0 <= i <= |cases| && testCases == cases && IsStart(done, cases, i)
        invariant CasesJudged(done, settings) && Tallied(settings, done, numRunnableTests, numSelectedTests)
      {
        var c := testCases[i];
        StartGrows(done, cases, i);
        NextIsApart(done, cases, i);
        numRunnableTests, numSelectedTests := FilterOne(done, c, settings, numRunnableTests, numSelectedTests);
        done := done + [c];
        i := i + 1;
      }
      StartEnds(done, cases);
      TallyIs(settings, cases, numRunnableTests, numSelectedTests);
    }

    lemma RegisteredIs()
      requires Registered()
      ensures IsStart([], testCases, 0) && Apart(testCases) && AllValid(testCases)
    {
    }

    /** Filtering one test case leaves the marks of the others alone. */
    method FilterKeeping(ghost done: seq<TestCase>, c: TestCase, settings: Settings,
                         runnableBefore: nat, selectedBefore: nat)
      returns (numRunnableTests: nat, numSelectedTests: nat)
      requires Usable(settings.shard) && CasesJudged(done, settings) && TestsApart(done, c)
      modifies c`shouldRun
      modifies c.testInfoList`isDisabled, c.testInfoList`matchesFilter, c.testInfoList`isInAnotherShard, c.testInfoList`shouldRun
      ensures CasesJudged(done, settings)
      ensures var runnable := RunnableIn(settings, c.name, c.testInfoList);
        && numRunnableTests == runnableBefore + Count(runnable)
        && numSelectedTests == selectedBefore + Count(Selection(runnable, settings.shard, runnableBefore))
        && AllJudged(c.testInfoList, settings, c.name, runnable, runnableBefore)
        && (c.shouldRun <==> SomeRuns(c.testInfoList))
    {
      hide Count, Selection, RunnableTests, RunnableIn, BeforeCase, NoDuplicates, TestSet, Judged, Before;
      numRunnableTests, numSelectedTests := FilterTestCase(c, settings, runnableBefore, selectedBefore);
      forall i | 0 <= i < |done|
        ensures CaseJudged(done[i], settings, BeforeCase(settings, done, i))
      {
        var d, before := done[i], BeforeCase(settings, done, i);
        var tests, runnable := d.testInfoList, RunnableIn(settings, d.name, d.testInfoList);
        assert d in done && d != c && forall t :: t in tests ==> t !in c.testInfoList;
        assert before == old(BeforeCase(settings, done, i));
        assert old(CaseJudged(d, settings, before));
        assert AllJudged(tests, settings, d.name, runnable, before) by {
          forall j | 0 <= j < |tests|
            ensures Judged(tests[j], settings, d.name, Before(runnable, before, j))
          {
            assert tests[j] in tests;
            assert old(Judged(tests[j], settings, d.name, Before(runnable, before, j)));
          }
        }
        assert forall t :: t in tests ==> t.shouldRun == old(t.shouldRun);
      }
    }

    method FilterOne(ghost done: seq<TestCase>, c: TestCase, settings: Settings, runnableBefore: nat, selectedBefore: nat)
      returns (numRunnableTests: nat, numSelectedTests: nat)
      requires Usable(settings.shard) && CasesJudged(done, settings) && TestsApart(done, c)
      requires Tallied(settings, done, runnableBefore, selectedBefore)
      modifies c`shouldRun
      modifies c.testInfoList`isDisabled, c.testInfoList`matchesFilter, c.testInfoList`isInAnotherShard, c.testInfoList`shouldRun
      ensures CasesJudged(done + [c], settings)
      ensures Tallied(settings, done + [c], numRunnableTests, numSelectedTests)
    {
      hide Count, Selection, RunnableTests, RunnableIn, CaseJudged, BeforeCase, AllJudged, SomeRuns, NoDuplicates, TestSet;
      hide CasesJudged, TestsApart;
      numRunnableTests, numSelectedTests := FilterKeeping(done, c, settings, runnableBefore, selectedBefore);
      CountsGrow(settings, done, c);
      CaseIsJudged(c, settings, done);
      JudgedGrows(done, c, settings);
    }

    // -------------------------------------------------------------- running

    lemma PositionsInRange()
      requires Valid()
      ensures |testCaseIndices| == |testCases|
      ensures forall i :: 0 <= i < |testCases| ==> testCaseIndices[i] < |testCases|
      ensures forall i :: 0 <= i < |testCases| ==> (testCaseIndices[i] <= lastDeathTestCase <==> i <= lastDeathTestCase)
    {
      var at, n := testCaseIndices, lastDeathTestCase + 1;
      InRange(at[..n], 0, n);
      InRange(at[n..], n, |testCases|);
      forall i | 0 <= i < |testCases|
        ensures at[i] < |testCases| && (at[i] < n <==> i < n)
      {
        assert i < n ==> at[i] == at[..n][i];
        assert i >= n ==> at[i] == at[n..][i - n];
      }
    }

    /** The test cases in the order in which they run. */
    ghost function RunOrder(): seq<TestCase>
      requires Valid()
      reads this`testCases, this`lastDeathTestCase, this`testCaseIndices, testCases`testInfoList, testCases`testIndices
    {
      PositionsInRange();
      Select(testCases, testCaseIndices)
    }

    /** Each test case has one place in the order, and the death tests have the first places. */
    lemma RunOrderPermutes()
      requires Valid()
      ensures NoDuplicates(RunOrder()) && SameMembers(RunOrder(), testCases)
      ensures DeathTestsFirst(RunOrder(), lastDeathTestCase + 1) && |RunOrder()| == |testCases|
    {
      hide *;
      var order, at, n := RunOrder(), testCaseIndices, lastDeathTestCase + 1;
      RunOrderIs();
      SelectRange(testCases, at, 0, |testCases|);
      assert testCases[0..|testCases|] == testCases;
      SameElements(testCases, order);
      DeathTestsStayFirst(testCases, order, at, n);
    }

    lemma RunOrderIs()
      requires Valid()
      ensures 0 <= lastDeathTestCase + 1 && |testCaseIndices| == |testCases|
      ensures forall i :: 0 <= i < |testCases| ==>
        testCaseIndices[i] < |testCases| && (testCaseIndices[i] < lastDeathTestCase + 1 <==> i < lastDeathTestCase + 1)
      ensures RunOrder() == Select(testCases, testCaseIndices)
      ensures multiset(testCaseIndices) == multiset(Upto(0, |testCases|))
      ensures NoDuplicates(testCases) && DeathTestsFirst(testCases, lastDeathTestCase + 1)
    {
      PositionsInRange();
      hide DeathTestsFirst, AllValid;
      var at, n := testCaseIndices, lastDeathTestCase + 1;
      UptoSplits(0, n, |at|);
      assert at == at[..n] + at[n..];
    }

    function GetMutableTestCase(i: nat): (r: TestCase?)
      requires Valid()
      reads this`testCases, this`lastDeathTestCase, this`testCaseIndices, testCases`testInfoList, testCases`testIndices
      ensures i < |testCases| ==> r == RunOrder()[i]
      ensures i >= |testCases| ==> r == null
    {
      PositionsInRange();
      if i < |testCaseIndices| then testCases[testCaseIndices[i]] else null
    }

    ghost method AllTests() returns (tests: set<TestInfo>)
      ensures tests == TestSet(testCases)
    {
      tests := TestSet(testCases);
    }

    ghost method SelectedTests() returns (runs: set<TestInfo>)
      ensures runs == SelectedSet(testCases)
    {
      runs := SelectedSet(testCases);
    }

    ghost method AllLists() returns (lists: seq<seq<TestInfo>>)
      ensures lists == Lists(testCases)
    {
      lists := Lists(testCases);
    }

    lemma NothingRun(lists: seq<seq<TestInfo>>, runs: set<TestInfo>)
      requires Valid()
      ensures 0 <= lastDeathTestCase + 1 && IsStart([], RunOrder(), 0) && |RunOrder()| == |testCases| == |Current().cases|
      ensures {} == TestSet([]) && RanIn([], {}) && Ordered([], 0, lastDeathTestCase + 1)
      ensures SameMembers(RunOrder(), testCases) && Plan(lists, Current(), runs, 0) == []
    {
      RunOrderPermutes();
    }

    /** Runs all test cases; returns which tests ran, in order. */
    method RunTests(ghost tests: set<TestInfo>, ghost lists: seq<seq<TestInfo>>, ghost runs: set<TestInfo>)
      returns (ran: seq<TestInfo>)
      requires Valid() && CasesFiltered(testCases) && tests == TestSet(testCases)
      requires lists == Lists(testCases) && runs == SelectedSet(testCases)
      ensures Valid() && |Current().cases| == |testCases| && Current() == old(Current())
      ensures RanIn(ran, tests) && DeathTestsRunFirst(ran) && ran == Plan(lists, Current(), runs, |testCases|)
    {
      hide *;
      ran := [];
      NothingRun(lists, runs);
      ghost var done, order, n, some, a := [], RunOrder(), lastDeathTestCase + 1, {}, Current();
      var i := 0;
      while i < |testCases|
        invariant 0 <= i <= |testCases| && IsStart(done, order, i)
        invariant RanIn(ran, some) && Ordered(ran, i, n) && some == TestSet(done)
        invariant Valid() && RunOrder() == order && CasesFiltered(testCases) && tests == TestSet(testCases)
        invariant Current() == a && lists == Lists(testCases) && runs == SelectedSet(testCases) && ran == Plan(lists, a, runs, i)
      {
        StartGrows(done, order, i);
        ghost var c := order[i];
        PlanStep(lists, a, runs, i);
        ran, some := RunNext(done, some, ran, i, tests, lists, runs);
        done := done + [c];
        i := i + 1;
      }
      StartEnds(done, order);
      SameTests(order, testCases);
      OrderedIs(ran, i, n);
    }

    method RunNext(ghost done: seq<TestCase>, ghost some: set<TestInfo>, ran: seq<TestInfo>, i: nat,
                   ghost tests: set<TestInfo>, ghost lists: seq<seq<TestInfo>>, ghost runs: set<TestInfo>)
      returns (all: seq<TestInfo>, ghost more: set<TestInfo>)
      requires Valid() && CasesFiltered(testCases) && i < |testCases| == |RunOrder()| && IsStart(done, RunOrder(), i)
      requires tests == TestSet(testCases) && lists == Lists(testCases) && runs == SelectedSet(testCases)
      requires some == TestSet(done) && RanIn(ran, some) && Ordered(ran, i, lastDeathTestCase + 1)
      requires i < |Current().cases|
      ensures Valid() && RunOrder() == old(RunOrder()) && CasesFiltered(testCases) && tests == TestSet(testCases)
      ensures Current() == old(Current()) && lists == Lists(testCases) && runs == SelectedSet(testCases)
      ensures more == TestSet(done + [RunOrder()[i]]) && RanIn(all, more) && Ordered(all, i + 1, lastDeathTestCase + 1)
      ensures all == ran + CasePlan(lists, Current(), runs, Current().cases[i])
    {
      hide *;
      ghost var order := RunOrder();
      var c := TestCaseAt(i);
      NextToRun(done, i);
      SelectedOf(i);
      var r := c.Run(runs);
      CasePlanIs(i, runs);
      more := TestSet(done + [c]);
      RanOneMore(done, c, ran, r);
      OrderedOneMore(order, c, ran, r, i, lastDeathTestCase + 1);
      all := ran + r;
    }

    lemma SelectedOf(i: nat)
      requires Valid() && i < |RunOrder()|
      ensures RunsAre(RunOrder()[i].testInfoList, SelectedSet(testCases))
    {
      RunOrderPermutes();
      var c := RunOrder()[i];
      hide RunOrder, UnitTestImpl.Valid;
      assert c in testCases;
      forall j | 0 <= j < |c.testInfoList|
        ensures c.testInfoList[j] in TestSet(testCases)
      {
        var k :| 0 <= k < |testCases| && testCases[k] == c;
      }
    }

    /** What a place of the order contributes to the plan. */
    lemma CasePlanIs(i: nat, runs: set<TestInfo>)
      requires Valid() && i < |testCases| == |RunOrder()| && RunOrder()[i].Valid() && i < |Current().cases|
      ensures CasePlan(Lists(testCases), Current(), runs, Current().cases[i]) == Running(RunOrder()[i].InRunOrder(), runs)
    {
      PositionsInRange();
      InRange(RunOrder()[i].testIndices, 0, |RunOrder()[i].testInfoList|);
    }

    lemma NextToRun(done: seq<TestCase>, i: nat)
      requires Valid() && CasesFiltered(testCases) && i < |testCases| == |RunOrder()| && IsStart(done, RunOrder(), i)
      ensures var c := RunOrder()[i];
        c.Valid() && TestsApart(done, c) && (c.shouldRun <==> SomeRuns(c.testInfoList))
      ensures 0 <= lastDeathTestCase + 1 && DeathTestsFirst(RunOrder(), lastDeathTestCase + 1)
    {
      var order := RunOrder();
      RunOrderPermutes();
      hide RunOrder, Permuted, IsDeathTestCase;
      assert order[i] in testCases;
      OneCaseEach(done, testCases, order[i]);
    }

    method TestCaseAt(i: nat) returns (c: TestCase)
      requires Valid() && i < |testCases|
      ensures c == RunOrder()[i]
    {
      c := GetMutableTestCase(i);
    }

    /** One iteration: perhaps shuffle, run if there is anything to run and the environments could be set
        up, and restore the order. */
    method RunIteration(shuffle: bool, hasTestsToRun: bool, randomSeed: nat, setUpFails: bool,
                        ghost tests: set<TestInfo>, ghost lists: seq<seq<TestInfo>>, ghost runs: set<TestInfo>)
      returns (ran: seq<TestInfo>)
      requires Valid() && Unshuffled() && CasesFiltered(testCases) && tests == TestSet(testCases)
      requires lists == Lists(testCases) && runs == SelectedSet(testCases)
      requires !hasTestsToRun ==> RanIn([], tests)
      modifies random`state, this`testCaseIndices, testCases`testIndices
      ensures Valid() && Unshuffled() && 0 <= lastDeathTestCase + 1 <= |lists|
      ensures RunIs(ran, setUpFails, tests, IterationPlan(lists, runs, shuffle, randomSeed, lastDeathTestCase + 1))
    {
      hide *;
      if hasTestsToRun && shuffle {
        random.Reseed(randomSeed);
      }
      CurrentIs();
      InitialIs(lists);
      ghost var start, n := Current(), lastDeathTestCase + 1;
      if hasTestsToRun && shuffle {
        ShuffleTests();
      }
      ran := [];
      if hasTestsToRun && !setUpFails {
        ran := RunTests(tests, lists, runs);
        PlanIs(lists, runs, shuffle, randomSeed, n, start, Current());
        RanAsPlanned(ran, tests);
      } else {
        NothingRanAs(testCases, lists, runs, shuffle, randomSeed, n, hasTestsToRun, setUpFails);
      }
      UnshuffleTests();
    }

    lemma InitialIs(lists: seq<seq<TestInfo>>)
      requires Valid() && Unshuffled() && lists == Lists(testCases)
      ensures Current() == Initial(lists, random.state) && 0 <= lastDeathTestCase + 1 <= |lists| == |testCases|
    {
      forall i | 0 <= i < |testCases| ensures Orders(testCases)[i] == InitialOrders(lists)[i] {
        assert testCases[i].InOrder();
      }
      assert Orders(testCases) == InitialOrders(lists);
    }

    lemma ValidIs()
      requires Valid()
      ensures Registered() && Permuted()
    {
    }

    /** Filters the tests and runs them once for each element of `setUpFails`, which says whether a fatal
        failure is on record once the environments of that iteration have been set up. */
    method RunAllTests(settings: Settings, shuffle: bool, randomSeed: nat, setUpFails: seq<bool>) returns (runs: seq<seq<TestInfo>>)
      requires Valid() && Unshuffled() && Usable(settings.shard) && 1 <= randomSeed <= KMaxRandomSeed
      modifies random`state, this`testCaseIndices, testCases`testIndices
      modifies testCases`shouldRun
      modifies TestSet(testCases)`isDisabled, TestSet(testCases)`matchesFilter, TestSet(testCases)`isInAnotherShard, TestSet(testCases)`shouldRun
      ensures Valid() && Unshuffled()
      ensures CasesJudged(testCases, settings) && |runs| == |setUpFails| && 0 <= lastDeathTestCase + 1 <= |Lists(testCases)|
      ensures forall k :: 0 <= k < |runs| ==>
        RunIs(runs[k], setUpFails[k], TestSet(testCases),
              IterationPlan(Lists(testCases), SelectedSet(testCases), shuffle, SeedAt(randomSeed, k), lastDeathTestCase + 1))
    {
      hide *;
      ghost var tests := AllTests();
      ValidIs();
      var numSelectedTests := FilterTests(settings);
      JudgedFiltered(testCases, settings);
      NowShuffled();
      ghost var lists := AllLists();
      ghost var selected := SelectedTests();
      runs := RepeatTests(shuffle, randomSeed, numSelectedTests > 0, setUpFails, tests, lists, selected);
    }

    method RepeatTests(shuffle: bool, randomSeed: nat, hasTestsToRun: bool, setUpFails: seq<bool>,
                       ghost tests: set<TestInfo>, ghost lists: seq<seq<TestInfo>>, ghost selected: set<TestInfo>)
      returns (runs: seq<seq<TestInfo>>)
      requires Valid() && Unshuffled() && CasesFiltered(testCases) && tests == TestSet(testCases)
      requires lists == Lists(testCases) && selected == SelectedSet(testCases)
      requires 1 <= randomSeed <= KMaxRandomSeed
      requires !hasTestsToRun ==> RanIn([], tests)
      modifies random`state, this`testCaseIndices, testCases`testIndices
      ensures Valid() && Unshuffled() && |runs| == |setUpFails| && 0 <= lastDeathTestCase + 1 <= |lists|
      ensures forall k :: 0 <= k < |runs| ==>
        RunIs(runs[k], setUpFails[k], tests, IterationPlan(lists, selected, shuffle, SeedAt(randomSeed, k), lastDeathTestCase + 1))
    {
      hide *;
      var seed := if shuffle then randomSeed else 0;
      runs := [];
      SeedStarts(randomSeed);
      InitialIs(lists);
      var i := 0;
      while i < |setUpFails|
        invariant 0 <= i <= |setUpFails| && |runs| == i
        invariant Valid() && Unshuffled() && 0 <= lastDeathTestCase + 1 <= |lists|
        invariant forall k :: 0 <= k < i ==>
          RunIs(runs[k], setUpFails[k], tests, IterationPlan(lists, selected, shuffle, SeedAt(randomSeed, k), lastDeathTestCase + 1))
        invariant 0 <= seed && (shuffle ==> seed == SeedAt(randomSeed, i))
      {
        var ran := RunIteration(shuffle, hasTestsToRun, seed, setUpFails[i], tests, lists, selected);
        SeedDoesNotMatter(lists, selected, seed, SeedAt(randomSeed, i), lastDeathTestCase + 1);
        runs := runs + [ran];
        SeedStep(randomSeed, i);
        if shuffle {
          seed := GetNextRandomSeed(seed);
        }
        i := i + 1;
      }
    }
  }

  // ---------------------------------------------------------------- what running means

  /** What an iteration runs: nothing if setting up the environments failed, otherwise the tests that should
      run, each once, death tests first, as planned. */
  ghost predicate RunIs(ran: seq<TestInfo>, setUpFails: bool, tests: set<TestInfo>, plan: seq<TestInfo>)
    reads tests`shouldRun
  {
    if setUpFails then ran == [] else RanIn(ran, tests) && DeathTestsRunFirst(ran) && ran == plan
  }

  lemma RanAsPlanned(ran: seq<TestInfo>, tests: set<TestInfo>)
    requires RanIn(ran, tests) && DeathTestsRunFirst(ran)
    ensures RunIs(ran, false, tests, ran)
  {
  }

  lemma NothingRanAs(testCases: seq<TestCase>, lists: seq<seq<TestInfo>>, selected: set<TestInfo>, shuffle: bool, seed: nat, n: int,
                     hasTestsToRun: bool, setUpFails: bool)
    requires selected == SelectedSet(testCases) && 0 <= n <= |lists| && (!hasTestsToRun || setUpFails)
    requires !hasTestsToRun ==> RanIn([], TestSet(testCases))
    ensures RunIs([], setUpFails, TestSet(testCases), IterationPlan(lists, selected, shuffle, seed, n))
  {
    hide IterationPlan, SelectedSet;
    if !setUpFails {
      NothingSelected(testCases, lists, selected, shuffle, n);
      NoneOutOfOrder();
    }
  }

  /** The tests that should run. */
  ghost function SelectedSet(testCases: seq<TestCase>): set<TestInfo>
    reads testCases`testInfoList, TestSet(testCases)`shouldRun
  {
    set t | t in TestSet(testCases) && t.shouldRun
  }

  lemma PlanStep(lists: seq<seq<TestInfo>>, a: Arrangement, runs: set<TestInfo>, i: nat)
    requires i < |a.cases|
    ensures Plan(lists, a, runs, i + 1) == Plan(lists, a, runs, i) + CasePlan(lists, a, runs, a.cases[i])
  {
  }

  lemma PlanIs(lists: seq<seq<TestInfo>>, runs: set<TestInfo>, shuffle: bool, seed: nat, n: nat, start: Arrangement, a: Arrangement)
    requires n <= |lists| == |a.cases| && start == Initial(lists, start.state) && |start.cases| == |lists|
    requires if shuffle then start.state == seed && a == Arranged(start, n) else a == start
    ensures Plan(lists, a, runs, |lists|) == IterationPlan(lists, runs, shuffle, seed, n)
  {
    hide Arranged;
    if !shuffle {
      PlanIgnoresState(lists, a, Initial(lists, 0), runs, |lists|);
    }
  }

  lemma SeedDoesNotMatter(lists: seq<seq<TestInfo>>, runs: set<TestInfo>, seed: nat, other: nat, n: nat)
    requires n <= |lists|
    ensures IterationPlan(lists, runs, false, seed, n) == IterationPlan(lists, runs, false, other, n)
  {
  }

  lemma {:induction false} NothingPlanned(lists: seq<seq<TestInfo>>, a: Arrangement, n: nat)
    requires n <= |a.cases|
    ensures Plan(lists, a, {}, n) == []
  {
    if n > 0 {
      NothingPlanned(lists, a, n - 1);
      var k := a.cases[n - 1];
      if k < |lists| && k < |a.tests| && AllBelow(a.tests[k], |lists[k]|) {
        RunningNone(Select(lists[k], a.tests[k]), {});
      }
    }
  }

  lemma NothingSelected(testCases: seq<TestCase>, lists: seq<seq<TestInfo>>, selected: set<TestInfo>, shuffle: bool, n: int)
    requires RanIn([], TestSet(testCases)) && selected == SelectedSet(testCases) && 0 <= n <= |lists|
    ensures forall seed: nat :: IterationPlan(lists, selected, shuffle, seed, n) == []
  {
    assert selected == {};
    hide Arranged;
    forall seed: nat
      ensures IterationPlan(lists, selected, shuffle, seed, n) == []
    {
      NothingPlanned(lists, Arranged(Initial(lists, seed), n), |lists|);
      NothingPlanned(lists, Initial(lists, 0), |lists|);
    }
  }

  /** The seed of iteration `k`. */
  function SeedAt(randomSeed: nat, k: nat): (r: nat)
    requires 1 <= randomSeed <= KMaxRandomSeed
    ensures 1 <= r <= KMaxRandomSeed
  {
    if k == 0 then randomSeed else GetNextRandomSeed(SeedAt(randomSeed, k - 1))
  }

  lemma SeedStarts(randomSeed: nat)
    requires 1 <= randomSeed <= KMaxRandomSeed
    ensures SeedAt(randomSeed, 0) == randomSeed
  {
  }

  lemma SeedStep(randomSeed: nat, k: nat)
    requires 1 <= randomSeed <= KMaxRandomSeed
    ensures SeedAt(randomSeed, k + 1) == GetNextRandomSeed(SeedAt(randomSeed, k))
  {
  }

  /** Each iteration takes the next of the seeds 1 to 99999, and after the last one the first. */
  lemma {:induction false} SeedAtIs(randomSeed: nat, k: nat)
    requires 1 <= randomSeed <= 99999
    ensures SeedAt(randomSeed, k) == (randomSeed - 1 + k) % 99999 + 1
  {
    if k > 0 {
      SeedAtIs(randomSeed, k - 1);
    }
  }

  /** Any 99999 successive iterations use every seed once. */
  lemma EverySeedOnce(randomSeed: nat, n: nat, seed: nat)
    requires 1 <= randomSeed <= 99999 && 1 <= seed <= 99999
    ensures exists k :: n <= k < n + 99999 && SeedAt(randomSeed, k) == seed
    ensures forall j: nat, k: nat :: n <= j < k < n + 99999 ==> SeedAt(randomSeed, j) != SeedAt(randomSeed, k)
  {
    hide SeedAt;
    var k := n + (seed + 99999 - SeedAt(randomSeed, n)) % 99999;
    SeedAtIs(randomSeed, n);
    SeedAtIs(randomSeed, k);
    assert SeedAt(randomSeed, k) == seed;
    forall i: nat, j: nat | n <= i < j < n + 99999
      ensures SeedAt(randomSeed, i) != SeedAt(randomSeed, j)
    {
      SeedAtIs(randomSeed, i);
      SeedAtIs(randomSeed, j);
    }
  }

  /** A run that starts with the seed of iteration `n` repeats what follows from there. */
  lemma {:induction false} SeedsContinue(randomSeed: nat, n: nat, k: nat)
    requires 1 <= randomSeed <= KMaxRandomSeed
    ensures SeedAt(randomSeed, n + k) == SeedAt(SeedAt(randomSeed, n), k)
  {
    if k > 0 {
      SeedsContinue(randomSeed, n, k - 1);
    }
  }

  /** The tests of the first `n` test cases in the order of registration. */
  ghost function InTurn(lists: seq<seq<TestInfo>>, n: nat): seq<TestInfo>
    requires n <= |lists|
  {
    if n == 0 then [] else InTurn(lists, n - 1) + lists[n - 1]
  }

  lemma {:induction false} InitialPlan(lists: seq<seq<TestInfo>>, state: nat, runs: set<TestInfo>, n: nat)
    requires n <= |lists|
    ensures Plan(lists, Initial(lists, state), runs, n) == Running(InTurn(lists, n), runs)
  {
    hide Running, CasePlan, Initial, Select;
    InitialPlace(lists, state);
    if n == 0 {
      RunningNone([], runs);
    } else {
      InitialPlan(lists, state, runs, n - 1);
      InitialCase(lists, state, runs, n - 1);
      RunningJoined(InTurn(lists, n - 1), lists[n - 1], runs);
    }
  }

  lemma InitialPlace(lists: seq<seq<TestInfo>>, state: nat)
    ensures |Initial(lists, state).cases| == |lists| && forall k :: 0 <= k < |lists| ==> Initial(lists, state).cases[k] == k
  {
  }

  lemma InitialCase(lists: seq<seq<TestInfo>>, state: nat, runs: set<TestInfo>, k: nat)
    requires k < |lists|
    ensures CasePlan(lists, Initial(lists, state), runs, k) == Running(lists[k], runs)
  {
    hide *;
    SelectAll(lists[k]);
    InitialTests(lists, state, k);
    CasePlanOf(lists, Initial(lists, state), runs, k);
  }

  lemma InitialTests(lists: seq<seq<TestInfo>>, state: nat, k: nat)
    requires k < |lists|
    ensures k < |Initial(lists, state).tests| && Initial(lists, state).tests[k] == Upto(0, |lists[k]|)
  {
  }

  lemma CasePlanOf(lists: seq<seq<TestInfo>>, a: Arrangement, runs: set<TestInfo>, k: nat)
    requires k < |lists| && k < |a.tests| && AllBelow(a.tests[k], |lists[k]|)
    ensures CasePlan(lists, a, runs, k) == Running(Select(lists[k], a.tests[k]), runs)
  {
  }

  /** Without shuffling the tests run in the order of registration. */
  lemma UnshuffledPlan(lists: seq<seq<TestInfo>>, runs: set<TestInfo>, seed: nat, n: nat)
    requires n <= |lists|
    ensures IterationPlan(lists, runs, false, seed, n) == Running(InTurn(lists, |lists|), runs)
  {
    InitialPlan(lists, 0, runs, |lists|);
  }

  ghost predicate CasesFiltered(testCases: seq<TestCase>)
    reads testCases`testInfoList, testCases`shouldRun, TestSet(testCases)`shouldRun
  {
    forall i :: 0 <= i < |testCases| ==> (testCases[i].shouldRun <==> SomeRuns(testCases[i].testInfoList))
  }

  /** Of these tests, those that should run have run, each once. */
  ghost predicate RanIn(ran: seq<TestInfo>, tests: set<TestInfo>)
    reads tests`shouldRun
  {
    && NoDuplicates(ran)
    && (forall t :: t in ran ==> t in tests && t.shouldRun)
    && (forall t :: t in tests && t.shouldRun ==> t in ran)
  }

  /** No death test runs after a test that is none. */
  ghost predicate DeathTestsRunFirst(ran: seq<TestInfo>) {
    forall i, j :: 0 <= i < j < |ran| && IsDeathTestCase(ran[j].testCaseName) ==> IsDeathTestCase(ran[i].testCaseName)
  }

  lemma NoneOutOfOrder()
    ensures DeathTestsRunFirst([])
  {
  }

  /** ... and up to the first `n` test cases only death tests have run. */
  ghost predicate Ordered(ran: seq<TestInfo>, i: nat, n: nat) {
    && DeathTestsRunFirst(ran)
    && (i <= n ==> forall k :: 0 <= k < |ran| ==> IsDeathTestCase(ran[k].testCaseName))
  }

  lemma OrderedIs(ran: seq<TestInfo>, i: nat, n: nat)
    requires Ordered(ran, i, n)
    ensures DeathTestsRunFirst(ran)
  {
  }

  lemma RanOneMore(done: seq<TestCase>, c: TestCase, ran: seq<TestInfo>, r: seq<TestInfo>)
    requires RanIn(ran, TestSet(done)) && RanAre(r, c.testInfoList) && TestsApart(done, c)
    ensures RanIn(ran + r, TestSet(done + [c]))
  {
    assert forall t :: t in TestSet(done + [c]) <==> t in TestSet(done) || t in c.testInfoList;
    assert forall t :: t in r ==> t in c.testInfoList && t !in ran;
    AddAllNew(ran, r);
  }

  lemma AddAllNew<T>(s: seq<T>, r: seq<T>)
    requires NoDuplicates(s) && NoDuplicates(r) && forall x :: x in r ==> x !in s
    ensures NoDuplicates(s + r)
  {
    var all := s + r;
    forall i, j | 0 <= i < j < |all|
      ensures all[i] != all[j]
    {
      if i < |s| <= j {
        assert all[i] in s && all[j] == r[j - |s|];
      }
    }
  }

  lemma OrderedOneMore(order: seq<TestCase>, c: TestCase, ran: seq<TestInfo>, r: seq<TestInfo>, i: nat, n: nat)
    requires i < |order| && order[i] == c && c.Valid() && RanAre(r, c.testInfoList)
    requires DeathTestsFirst(order, n) && Ordered(ran, i, n)
    ensures Ordered(ran + r, i + 1, n)
  {
    hide IsDeathTestCase;
    forall k | 0 <= k < |r|
      ensures r[k].testCaseName == c.name
    {
      assert r[k] in r && r[k] in c.testInfoList;
    }
  }

  lemma SameTests(order: seq<TestCase>, testCases: seq<TestCase>)
    requires SameMembers(order, testCases)
    ensures TestSet(order) == TestSet(testCases)
  {
  }

  lemma DeathTestsStayFirst(testCases: seq<TestCase>, order: seq<TestCase>, at: seq<nat>, n: nat)
    requires |at| == |testCases| && DeathTestsFirst(testCases, n)
    requires forall i :: 0 <= i < |at| ==> at[i] < |testCases| && (at[i] < n <==> i < n)
    requires order == Select(testCases, at)
    ensures DeathTestsFirst(order, n)
  {
    hide IsDeathTestCase, Select;
  }

  function GetNextRandomSeed(seed: nat): (r: nat)
    requires 1 <= seed <= KMaxRandomSeed
    ensures 1 <= r <= KMaxRandomSeed
  {
    if seed + 1 > KMaxRandomSeed then 1 else seed + 1
  }

  // ---------------------------------------------------------------- what filtering means

  ghost predicate CaseJudged(c: TestCase, settings: Settings, before: nat)
    requires Usable(settings.shard)
    reads c`testInfoList, c`shouldRun
    reads c.testInfoList`isDisabled, c.testInfoList`matchesFilter, c.testInfoList`isInAnotherShard, c.testInfoList`shouldRun
  {
    && AllJudged(c.testInfoList, settings, c.name, RunnableIn(settings, c.name, c.testInfoList), before)
    && (c.shouldRun <==> SomeRuns(c.testInfoList))
  }

  /** How many runnable tests come before the test case at position `i`. */
  ghost function BeforeCase(settings: Settings, testCases: seq<TestCase>, i: nat): nat
    requires i <= |testCases|
    reads testCases`testInfoList
  {
    Count(RunnableTests(settings, testCases[..i]))
  }

  /** Every test carries the marks that the filter, the disabled names and the shard give it, and a test
      case should run if and only if one of its tests should. */
  ghost predicate CasesJudged(testCases: seq<TestCase>, settings: Settings)
    requires Usable(settings.shard)
    reads testCases`testInfoList, testCases`shouldRun
    reads TestSet(testCases)`isDisabled, TestSet(testCases)`matchesFilter, TestSet(testCases)`isInAnotherShard, TestSet(testCases)`shouldRun
  {
    hide BeforeCase, CaseJudged, TestSet;
    forall i :: 0 <= i < |testCases| ==>
      CaseJudged(testCases[i], settings, BeforeCase(settings, testCases, i))
  }

  lemma JudgedGrows(done: seq<TestCase>, c: TestCase, settings: Settings)
    requires Usable(settings.shard) && CasesJudged(done, settings)
    requires CaseJudged(c, settings, BeforeCase(settings, done, |done|))
    ensures CasesJudged(done + [c], settings)
  {
    hide CaseJudged;
    forall i | 0 <= i <= |done|
      ensures BeforeCase(settings, done + [c], i) == BeforeCase(settings, done, i)
    {
      assert (done + [c])[..i] == done[..i];
    }
  }

  lemma CaseIsJudged(c: TestCase, settings: Settings, done: seq<TestCase>)
    requires Usable(settings.shard)
    requires AllJudged(c.testInfoList, settings, c.name, RunnableIn(settings, c.name, c.testInfoList),
                       Count(RunnableTests(settings, done)))
    requires c.shouldRun <==> SomeRuns(c.testInfoList)
    ensures CaseJudged(c, settings, BeforeCase(settings, done, |done|))
  {
    assert done[..|done|] == done;
  }

  lemma RunnableGrows(settings: Settings, done: seq<TestCase>, c: TestCase)
    ensures RunnableTests(settings, done + [c]) == RunnableTests(settings, done) + RunnableIn(settings, c.name, c.testInfoList)
  {
    assert (done + [c])[..|done|] == done;
  }

  lemma CountsGrow(settings: Settings, done: seq<TestCase>, c: TestCase)
    requires Usable(settings.shard)
    ensures var more := RunnableIn(settings, c.name, c.testInfoList);
      var before, after := RunnableTests(settings, done), RunnableTests(settings, done + [c]);
      && Count(after) == Count(before) + Count(more)
      && Count(Selection(after, settings.shard, 0))
        == Count(Selection(before, settings.shard, 0)) + Count(Selection(more, settings.shard, Count(before)))
  {
    var more := RunnableIn(settings, c.name, c.testInfoList);
    var before, after := RunnableTests(settings, done), RunnableTests(settings, done + [c]);
    hide *;
    RunnableGrows(settings, done, c);
    SelectionConcat(before, more, settings.shard, 0);
    CountConcat(before, more);
    CountConcat(Selection(before, settings.shard, 0), Selection(more, settings.shard, Count(before)));
  }

  /** The marks of all tests, test case by test case. */
  ghost function Marks(testCases: seq<TestCase>): seq<bool>
    reads testCases`testInfoList, TestSet(testCases)`shouldRun
  {
    if testCases == [] then []
    else
      var last := testCases[|testCases| - 1];
      assert last in testCases;
      Marks(testCases[..|testCases| - 1]) + MarksIn(last.testInfoList)
  }

  ghost function MarksIn(tests: seq<TestInfo>): (marks: seq<bool>)
    reads tests`shouldRun
    ensures |marks| == |tests|
  {
    if tests == [] then [] else MarksIn(tests[..|tests| - 1]) + [tests[|tests| - 1].shouldRun]
  }

  lemma {:induction false} MarksInAre(tests: seq<TestInfo>, settings: Settings, testCaseName: string,
                                      runnable: seq<bool>, before: nat)
    requires Usable(settings.shard) && runnable == RunnableIn(settings, testCaseName, tests)
    requires AllJudged(tests, settings, testCaseName, runnable, before)
    ensures MarksIn(tests) == Selection(runnable, settings.shard, before)
  {
    if tests != [] {
      var n := |tests| - 1;
      FrontAllJudged(tests, settings, testCaseName, runnable, before);
      MarksInAre(tests[..n], settings, testCaseName, runnable[..n], before);
      RunnableAt(settings, testCaseName, tests, n);
    }
  }

  lemma FrontAllJudged(tests: seq<TestInfo>, settings: Settings, testCaseName: string, runnable: seq<bool>, before: nat)
    requires Usable(settings.shard) && tests != [] && runnable == RunnableIn(settings, testCaseName, tests)
    requires AllJudged(tests, settings, testCaseName, runnable, before)
    ensures var n := |tests| - 1;
      && runnable[..n] == RunnableIn(settings, testCaseName, tests[..n])
      && AllJudged(tests[..n], settings, testCaseName, runnable[..n], before)
      && tests[n].shouldRun == (IsRunnable(settings, testCaseName, tests[n].name) && OnShard(settings.shard, before + Count(runnable[..n])))
  {
    hide IsRunnable, OnShard, Count, Judged, Before;
    var n := |tests| - 1;
    var front, r := tests[..n], runnable[..n];
    forall j | 0 <= j < n
      ensures Judged(front[j], settings, testCaseName, Before(r, before, j))
    {
      BeforeInFront(runnable, before, n, j);
      assert front[j] == tests[j];
    }
    BeforeIs(runnable, before, n);
    JudgedRuns(tests[n], settings, testCaseName, Before(runnable, before, n));
  }

  lemma BeforeInFront(runnable: seq<bool>, before: nat, n: nat, j: nat)
    requires j <= n <= |runnable|
    ensures Before(runnable[..n], before, j) == Before(runnable, before, j)
  {
    assert runnable[..n][..j] == runnable[..j];
  }

  lemma BeforeIs(runnable: seq<bool>, before: nat, j: nat)
    requires j <= |runnable|
    ensures Before(runnable, before, j) == before + Count(runnable[..j])
  {
  }

  /** Taken together, the marks are the selection of this shard among the runnable tests. */
  lemma {:induction false} MarksAreTheSelection(testCases: seq<TestCase>, settings: Settings)
    requires Usable(settings.shard) && CasesJudged(testCases, settings)
    ensures Marks(testCases) == Selection(RunnableTests(settings, testCases), settings.shard, 0)
  {
    hide *;
    if testCases == [] {
      MarksOfNone(settings);
    } else {
      var n := |testCases| - 1;
      var front, c := testCases[..n], testCases[n];
      FrontJudged(testCases, settings);
      MarksAreTheSelection(front, settings);
      CaseMarks(c, settings, front);
      LastCase(testCases, settings);
      SelectionConcat(RunnableTests(settings, front), RunnableIn(settings, c.name, c.testInfoList), settings.shard, 0);
    }
  }

  lemma MarksOfNone(settings: Settings)
    requires Usable(settings.shard)
    ensures Marks([]) == Selection(RunnableTests(settings, []), settings.shard, 0)
  {
  }

  lemma LastCase(testCases: seq<TestCase>, settings: Settings)
    requires testCases != []
    ensures var n := |testCases| - 1;
      var front, c := testCases[..n], testCases[n];
      && Marks(testCases) == Marks(front) + MarksIn(c.testInfoList)
      && RunnableTests(settings, testCases) == RunnableTests(settings, front) + RunnableIn(settings, c.name, c.testInfoList)
  {
    hide RunnableIn;
  }

  lemma FrontJudged(testCases: seq<TestCase>, settings: Settings)
    requires Usable(settings.shard) && testCases != [] && CasesJudged(testCases, settings)
    ensures var n := |testCases| - 1;
      CasesJudged(testCases[..n], settings) && CaseJudged(testCases[n], settings, Count(RunnableTests(settings, testCases[..n])))
  {
    hide CaseJudged;
    var n := |testCases| - 1;
    var front := testCases[..n];
    forall i | 0 <= i < n
      ensures BeforeCase(settings, front, i) == BeforeCase(settings, testCases, i)
    {
      assert front[..i] == testCases[..i];
    }
  }

  lemma CaseMarks(c: TestCase, settings: Settings, front: seq<TestCase>)
    requires Usable(settings.shard) && CaseJudged(c, settings, Count(RunnableTests(settings, front)))
    ensures MarksIn(c.testInfoList) == Selection(RunnableIn(settings, c.name, c.testInfoList), settings.shard, Count(RunnableTests(settings, front)))
  {
    hide RunnableTests, Count;
    MarksInAre(c.testInfoList, settings, c.name, RunnableIn(settings, c.name, c.testInfoList), Count(RunnableTests(settings, front)));
  }

  lemma JudgedFiltered(testCases: seq<TestCase>, settings: Settings)
    requires Usable(settings.shard) && CasesJudged(testCases, settings)
    ensures CasesFiltered(testCases)
    ensures Count(Selection(RunnableTests(settings, testCases), settings.shard, 0)) == 0 ==>
      RanIn([], TestSet(testCases))
  {
    hide Selection, RunnableTests, AllJudged, BeforeCase;
    MarksAreTheSelection(testCases, settings);
    NoMarks(testCases);
  }

  lemma {:induction false} NoMarksIn(tests: seq<TestInfo>)
    ensures Count(MarksIn(tests)) == 0 ==> forall t :: t in tests ==> !t.shouldRun
  {
    if tests != [] {
      NoMarksIn(tests[..|tests| - 1]);
      assert tests == tests[..|tests| - 1] + [tests[|tests| - 1]];
      assert MarksIn(tests)[..|tests| - 1] == MarksIn(tests[..|tests| - 1]);
    }
  }

  lemma {:induction false} NoMarks(testCases: seq<TestCase>)
    ensures Count(Marks(testCases)) == 0 ==> forall c, t :: c in testCases && t in c.testInfoList ==> !t.shouldRun
  {
    if testCases != [] {
      var front, c := testCases[..|testCases| - 1], testCases[|testCases| - 1];
      NoMarks(front);
      NoMarksIn(c.testInfoList);
      CountConcat(Marks(front), MarksIn(c.testInfoList));
      assert testCases == front + [c];
    }
  }

  /** The numbers of runnable and of selected tests. */
  ghost predicate Tallied(settings: Settings, testCases: seq<TestCase>, numRunnableTests: nat, numSelectedTests: nat)
    requires Usable(settings.shard)
    reads testCases`testInfoList
  {
    && numRunnableTests == Count(RunnableTests(settings, testCases))
    && numSelectedTests == Count(Selection(RunnableTests(settings, testCases), settings.shard, 0))
  }

  lemma TallyIs(settings: Settings, testCases: seq<TestCase>, numRunnableTests: nat, numSelectedTests: nat)
    requires Usable(settings.shard) && Tallied(settings, testCases, numRunnableTests, numSelectedTests)
    ensures numSelectedTests == Count(Selection(RunnableTests(settings, testCases), settings.shard, 0))
  {
  }

  lemma NothingFiltered(settings: Settings)
    requires Usable(settings.shard)
    ensures CasesJudged([], settings) && Tallied(settings, [], 0, 0)
  {
  }

  /** A test case has its own tests, each once, and no other test case has them. */
  ghost predicate TestsApart(done: seq<TestCase>, c: TestCase)
    reads done`testInfoList, c`testInfoList
  {
    && c !in done && NoDuplicates(c.testInfoList)
    && forall d, t :: d in done && t in d.testInfoList ==> t !in c.testInfoList
  }

  lemma NextIsApart(done: seq<TestCase>, testCases: seq<TestCase>, i: nat)
    requires i < |testCases| && IsStart(done, testCases, i) && Apart(testCases) && AllValid(testCases)
    ensures testCases[i] in testCases && TestsApart(done, testCases[i])
    ensures forall t :: t in testCases[i].testInfoList ==> t in TestSet(testCases)
  {
    StartWithin(done, testCases, i);
    OneCaseEach(done, testCases, testCases[i]);
  }

  /** A test belongs to one test case only. */
  lemma OneCaseEach(done: seq<TestCase>, testCases: seq<TestCase>, c: TestCase)
    requires Apart(testCases) && AllValid(testCases) && c in testCases
    requires forall d :: d in done ==> d in testCases && d != c
    ensures TestsApart(done, c)
  {
    OthersApart(testCases, c);
    hide Apart;
    forall d, t | d in done && t in d.testInfoList
      ensures t.testCaseName != c.name
    {
      assert d.Valid();
    }
    assert c.Valid();
  }

  lemma ArrangedIs(was: Arrangement, n: nat, now: Arrangement, middle: nat)
    requires n <= |was.cases| && (now.cases, middle) == CasesShuffled(was.cases, n, was.state)
    requires (now.tests, now.state) == AllShuffled(was.tests, middle)
    ensures now == Arranged(was, n)
  {
    hide CasesShuffled, AllShuffled;
  }

  lemma CasesShuffledIs(cases: seq<nat>, n: nat, state: nat)
    requires n <= |cases|
    ensures var (half, middle) := Shuffled(cases, 0, n, state);
      CasesShuffled(cases, n, state) == Shuffled(half, n, |cases| - n, middle)
  {
    hide Shuffled;
  }

  lemma NothingShuffled(olds: seq<seq<nat>>, state: nat)
    ensures IsStart([], olds, 0) && AllShuffled([], state) == ([], state)
  {
  }

  lemma OneMoreShuffled(done: seq<seq<nat>>, order: seq<nat>, start: nat, now: seq<seq<nat>>, middle: nat)
    requires (now, middle) == AllShuffled(done, start)
    ensures var (shuffled, end) := Shuffled(order, 0, |order|, middle);
      AllShuffled(done + [order], start) == (now + [shuffled], end)
  {
    hide Shuffled;
    assert (done + [order])[..|done|] == done;
  }

  lemma PlacesDiffer(testCases: seq<TestCase>, i: nat)
    requires Apart(testCases) && i < |testCases|
    ensures testCases[i] in testCases
    ensures forall k :: 0 <= k < |testCases| && k != i ==> testCases[k] != testCases[i]
  {
  }

  /** The first `n` of the `size` positions are permuted, and so are the others. */
  ghost predicate AreSplit(at: seq<nat>, n: nat, size: nat) {
    && n <= |at| == size
    && multiset(at[..n]) == multiset(Upto(0, n)) && multiset(at[n..]) == multiset(Upto(n, size))
  }

  lemma FirstShuffled(was: seq<nat>, now: seq<nat>, n: nat)
    requires n <= |was| == |now| && AreSplit(was, n, |was|) && PermutesRange(was, now, 0, n)
    ensures AreSplit(now, n, |was|)
  {
    assert now[0..n] == now[..n] && was[0..n] == was[..n];
  }

  lemma SecondShuffled(was: seq<nat>, now: seq<nat>, n: nat)
    requires n <= |was| == |now| && AreSplit(was, n, |was|) && PermutesRange(was, now, n, |was|)
    ensures AreSplit(now, n, |was|)
  {
    assert now[n..|was|] == now[n..] && was[n..|was|] == was[n..];
  }

  ghost predicate IsIdentity(at: seq<nat>, n: nat) {
    n <= |at| && forall k :: 0 <= k < n ==> at[k] == k
  }

  lemma IdentityGrows(at: seq<nat>, n: nat)
    requires IsIdentity(at, n) && n < |at|
    ensures IsIdentity(at[n := n], n + 1)
  {
  }

  lemma IsUpto(at: seq<nat>)
    requires IsIdentity(at, |at|)
    ensures at == Upto(0, |at|)
  {
  }

  lemma StartWithin(done: seq<TestCase>, testCases: seq<TestCase>, i: nat)
    requires IsStart(done, testCases, i) && i < |testCases| && Apart(testCases)
    ensures forall d :: d in done ==> d in testCases && d != testCases[i]
  {
  }

  lemma OthersApart(testCases: seq<TestCase>, c: TestCase)
    requires Apart(testCases) && c in testCases
    ensures forall d :: d in testCases && d != c ==> d.name != c.name
  {
  }

  lemma {:induction false} UptoSplits(lo: nat, mid: nat, hi: nat)
    requires lo <= mid <= hi
    ensures Upto(lo, hi) == Upto(lo, mid) + Upto(mid, hi)
    decreases mid - lo
  {
    if lo < mid {
      UptoSplits(lo + 1, mid, hi);
      assert [lo] + (Upto(lo + 1, mid) + Upto(mid, hi)) == [lo] + Upto(lo + 1, mid) + Upto(mid, hi);
    }
  }

  lemma UptoGrows(n: nat)
    ensures Upto(0, n) + [n] == Upto(0, n + 1)
  {
  }
}
