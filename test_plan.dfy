/**
 * The values and pure rules of the test allocator of the build: test
 * buckets and their durations, the two orders the plan is built in, the
 * grouping of a fork's buckets by test task, and the greedy allocation of
 * buckets to forks.
 *
 * Durations are Java `long` nanoseconds, modelled as unbounded integers.
 */
module TestPlan {
  import opened StableSort

  /** The Gradle test task a test belongs to, seen only through its identity. */
  type TestTask = string

  /** Tuple2<String, Long>: a recorded test matching a bucket, with its duration in nanoseconds. */
  datatype FoundTest = FoundTest(name: string, durationNanos: int)

  /** TestBucket: a discovered test (or class), the recorded tests it matches and its duration. */
  datatype TestBucket = TestBucket(testTask: TestTask, testName: string, foundTests: seq<FoundTest>,
                                   durationNanos: int)

  function Max(a: int, b: int): int { if a >= b then a else b }

  /** The sum over the found tests of max(duration, 1): a test never counts for less than a nanosecond. */
  function ClampedSum(found: seq<FoundTest>): (r: int)
    ensures r >= |found|
  {
    if found == [] then 0 else Max(found[0].durationNanos, 1) + ClampedSum(found[1..])
  }

  /** The clamped sum of two runs of found tests is the sum of their clamped sums. */
  lemma {:induction false} ClampedSumAppend(a: seq<FoundTest>, b: seq<FoundTest>)
    ensures ClampedSum(a + b) == ClampedSum(a) + ClampedSum(b)
  {
    if a == [] {
      assert a + b == b;
    } else {
      assert (a + b)[1..] == a[1..] + b;
      ClampedSumAppend(a[1..], b);
    }
  }

  /**
   * The TestBucket constructor: the duration is the larger of the clamped sum
   * and the default, so at least the default and at least one nanosecond per
   * found test.
   */
  function NewTestBucket(testTask: TestTask, testName: string, foundTests: seq<FoundTest>,
                         defaultDuration: int): (b: TestBucket)
    ensures b.testTask == testTask && b.testName == testName && b.foundTests == foundTests
    ensures b.durationNanos >= defaultDuration && b.durationNanos >= ClampedSum(foundTests)
    ensures b.durationNanos == defaultDuration || b.durationNanos == ClampedSum(foundTests)
    ensures b.durationNanos >= |foundTests|
  {
    TestBucket(testTask, testName, foundTests, Max(ClampedSum(foundTests), defaultDuration))
  }

  /** The sum of the durations of a run of buckets. */
  function TotalDuration(bs: seq<TestBucket>): (r: int)
    ensures (forall i :: 0 <= i < |bs| ==> bs[i].durationNanos >= 0) ==>
              r >= 0 && forall i :: 0 <= i < |bs| ==> r >= bs[i].durationNanos
  {
    if bs == [] then 0 else TotalDuration(bs[..|bs| - 1]) + bs[|bs| - 1].durationNanos
  }

  /** The total duration of two runs of buckets is the sum of their totals. */
  lemma {:induction false} TotalDurationAppend(a: seq<TestBucket>, b: seq<TestBucket>)
    ensures TotalDuration(a + b) == TotalDuration(a) + TotalDuration(b)
    decreases |b|
  {
    if b == [] {
      assert a + b == a;
    } else {
      assert (a + b)[..|a + b| - 1] == a + b[..|b| - 1];
      TotalDurationAppend(a, b[..|b| - 1]);
    }
  }

  // ---------------------------------------------------------------------------
  // The two orders of the plan
  // ---------------------------------------------------------------------------

  /** Long.compare: negative, zero or positive as x is below, equal to or above y. */
  function LongCompare(x: int, y: int): int
  {
    if x < y then -1 else if x == y then 0 else 1
  }

  /**
   * Comparator.comparing(TestBucket::getDuration).reversed(): a bucket may
   * come before another when it lasts at least as long.
   */
  predicate LongerFirst(a: TestBucket, b: TestBucket): (r: bool)
    ensures r <==> LongCompare(b.durationNanos, a.durationNanos) <= 0
  {
    a.durationNanos >= b.durationNanos
  }

  lemma LongerFirstIsTotalPreorder()
    ensures TotalPreorder(LongerFirst)
  {
    forall a: TestBucket, b: TestBucket
      ensures LongerFirst(a, b) || LongerFirst(b, a)
    {
    }
    forall a: TestBucket, b: TestBucket, c: TestBucket | LongerFirst(a, b) && LongerFirst(b, c)
      ensures LongerFirst(a, c)
    {
    }
  }

  /** String.compareTo(...) <= 0: lexicographic order on characters, a prefix first. */
  predicate StringLeq(a: string, b: string): (r: bool)
    ensures |a| <= |b| && a == b[..|a|] ==> r
    ensures |b| < |a| && b == a[..|b|] ==> !r
    ensures forall k :: 0 <= k < |a| && k < |b| && a[..k] == b[..k] && a[k] != b[k] ==> (r <==> a[k] < b[k])
  {
    if a == [] then true
    else if b == [] then false
    else if a[0] != b[0] then a[0] < b[0]
    else
      assert forall k :: 0 < k < |a| && k < |b| && a[..k] == b[..k] ==>
               a[1..][..k - 1] == b[1..][..k - 1] && a[1..][k - 1] == a[k] && b[1..][k - 1] == b[k];
      StringLeq(a[1..], b[1..])
  }

  lemma {:induction false} StringLeqTotal(a: string, b: string)
    ensures StringLeq(a, b) || StringLeq(b, a)
  {
    if a != [] && b != [] && a[0] == b[0] {
      StringLeqTotal(a[1..], b[1..]);
    }
  }

  lemma {:induction false} StringLeqTransitive(a: string, b: string, c: string)
    requires StringLeq(a, b) && StringLeq(b, c)
    ensures StringLeq(a, c)
  {
    if a != [] && b != [] && c != [] && a[0] == b[0] && b[0] == c[0] {
      StringLeqTransitive(a[1..], b[1..], c[1..]);
    }
  }

  /** Two lexicographically tied strings are equal. */
  lemma {:induction false} StringLeqAntisymmetric(a: string, b: string)
    requires StringLeq(a, b) && StringLeq(b, a)
    ensures a == b
  {
    if a != [] && b != [] {
      StringLeqAntisymmetric(a[1..], b[1..]);
      assert a == [a[0]] + a[1..] && b == [b[0]] + b[1..];
    }
  }

  /** A string comes before itself, and of two different strings exactly one comes first. */
  lemma StringLeqStrict(a: string, b: string)
    ensures a == b ==> StringLeq(a, b)
    ensures a != b ==> (StringLeq(a, b) <==> !StringLeq(b, a))
  {
    StringLeqTotal(a, b);
    if StringLeq(a, b) && StringLeq(b, a) {
      StringLeqAntisymmetric(a, b);
    }
  }

  /** A discovered test: its name and its test task. */
  type DiscoveredTest = (string, TestTask)

  /** Comparator.comparing(Tuple2::getFirst): discovered tests ordered by name. */
  predicate NameFirst(a: DiscoveredTest, b: DiscoveredTest): (r: bool)
    ensures a.0 == b.0 ==> r
    ensures a.0 != b.0 ==> (r <==> !StringLeq(b.0, a.0))
  {
    StringLeqStrict(a.0, b.0);
    StringLeq(a.0, b.0)
  }

  lemma NameFirstIsTotalPreorder()
    ensures TotalPreorder(NameFirst)
  {
    forall a: DiscoveredTest, b: DiscoveredTest
      ensures NameFirst(a, b) || NameFirst(b, a)
    {
      StringLeqTotal(a.0, b.0);
    }
    forall a: DiscoveredTest, b: DiscoveredTest, c: DiscoveredTest | NameFirst(a, b) && NameFirst(b, c)
      ensures NameFirst(a, c)
    {
      StringLeqTransitive(a.0, b.0, c.0);
    }
  }

  // ---------------------------------------------------------------------------
  // Building the plan from the discovered tests
  // ---------------------------------------------------------------------------

  /**
   * A source: the tests its lister discovers, in the lister's order, and the
   * test task they belong to.
   */
  type Source = (seq<string>, TestTask)

  /** Every test of one source, paired with the source's task. */
  function Tagged(tests: seq<string>, task: TestTask): (r: seq<DiscoveredTest>)
    ensures |r| == |tests|
    ensures forall i :: 0 <= i < |r| ==> r[i] == (tests[i], task)
  {
    if tests == [] then [] else [(tests[0], task)] + Tagged(tests[1..], task)
  }

  /** The flatMap over the sources: each source's tests paired with its task, source after source. */
  function Discovered(sources: seq<Source>): (r: seq<DiscoveredTest>)
    ensures forall t :: t in r <==> exists i :: 0 <= i < |sources| && t.1 == sources[i].1 && t.0 in sources[i].0
  {
    if sources == [] then []
    else
      var r := Tagged(sources[0].0, sources[0].1) + Discovered(sources[1..]);
      assert forall t :: t in r <==> exists i :: 0 <= i < |sources| && t.1 == sources[i].1 && t.0 in sources[i].0 by {
        forall t
          ensures t in r <==> exists i :: 0 <= i < |sources| && t.1 == sources[i].1 && t.0 in sources[i].0
        {
          if t in Discovered(sources[1..]) {
            var i :| 0 <= i < |sources[1..]| && t.1 == sources[1..][i].1 && t.0 in sources[1..][i].0;
            assert sources[i + 1] == sources[1..][i];
          }
          if exists i :: 0 <= i < |sources| && t.1 == sources[i].1 && t.0 in sources[i].0 {
            var i :| 0 <= i < |sources| && t.1 == sources[i].1 && t.0 in sources[i].0;
            if i == 0 {
              var j :| 0 <= j < |sources[0].0| && sources[0].0[j] == t.0;
              assert Tagged(sources[0].0, sources[0].1)[j] == t;
            } else {
              assert sources[1..][i - 1] == sources[i];
            }
          }
        }
      }
      r
  }

  /** A single source contributes its own tests, in its lister's order, each with the source's task. */
  lemma DiscoveredSingle(src: Source)
    ensures Discovered([src]) == Tagged(src.0, src.1)
  {
    assert [src][1..] == [];
  }

  /** The flatMap distributes over concatenation: the sources' tests come source after source. */
  lemma {:induction false} DiscoveredAppend(a: seq<Source>, b: seq<Source>)
    ensures Discovered(a + b) == Discovered(a) + Discovered(b)
    decreases |a|
  {
    if a != [] {
      assert (a + b)[0] == a[0];
      assert (a + b)[1..] == a[1..] + b;
      DiscoveredAppend(a[1..], b);
    } else {
      assert a + b == b;
    }
  }

  /**
   * getTestsOnClasspathOfTestingTasks: every discovered test with its task,
   * sorted by name; the sort is stable, so tests of the same name keep the
   * order of their sources.
   */
  function TestsOnClasspath(sources: seq<Source>): (r: seq<DiscoveredTest>)
    ensures forall i, j :: 0 <= i < j < |r| ==> StringLeq(r[i].0, r[j].0)
    ensures multiset(r) == multiset(Discovered(sources))
  {
    NameFirstIsTotalPreorder();
    Sort(Discovered(sources), NameFirst)
  }

  /** The bucket of each discovered test, from the tests recorded under its name and the default duration. */
  function Buckets(discovered: seq<DiscoveredTest>, startsWith: string -> seq<FoundTest>, meanDuration: int)
    : (r: seq<TestBucket>)
    ensures |r| == |discovered|
    ensures forall i :: 0 <= i < |r| ==>
              r[i] == NewTestBucket(discovered[i].1, discovered[i].0, startsWith(discovered[i].0), meanDuration)
  {
    if discovered == [] then []
    else [NewTestBucket(discovered[0].1, discovered[0].0, startsWith(discovered[0].0), meanDuration)]
         + Buckets(discovered[1..], startsWith, meanDuration)
  }

  /**
   * matchClasspathTestsToFile: one bucket per discovered test, longest
   * first; buckets of equal duration keep the order of the discovered tests.
   * The recorded tests are given by startsWith and the default duration by
   * meanDuration, the two queries on the recorded test durations.
   */
  function MatchTestsToFile(discovered: seq<DiscoveredTest>, startsWith: string -> seq<FoundTest>,
                            meanDuration: int): (r: seq<TestBucket>)
    ensures forall i, j :: 0 <= i < j < |r| ==> r[i].durationNanos >= r[j].durationNanos
    ensures multiset(r) == multiset(Buckets(discovered, startsWith, meanDuration))
  {
    LongerFirstIsTotalPreorder();
    Sort(Buckets(discovered, startsWith, meanDuration), LongerFirst)
  }

  /** Buckets of the same duration come out of the match in the order of the discovered tests. */
  lemma MatchIsStable(discovered: seq<DiscoveredTest>, startsWith: string -> seq<FoundTest>, meanDuration: int,
                      e: TestBucket)
    ensures Ties(MatchTestsToFile(discovered, startsWith, meanDuration), e, LongerFirst)
            == Ties(Buckets(discovered, startsWith, meanDuration), e, LongerFirst)
  {
    LongerFirstIsTotalPreorder();
    SortIsStable(Buckets(discovered, startsWith, meanDuration), e, LongerFirst);
  }

  /** Discovered tests of the same name come out in the order of their sources. */
  lemma ClasspathIsStable(sources: seq<Source>, e: DiscoveredTest)
    ensures Ties(TestsOnClasspath(sources), e, NameFirst) == Ties(Discovered(sources), e, NameFirst)
  {
    NameFirstIsTotalPreorder();
    SortIsStable(Discovered(sources), e, NameFirst);
  }

  // ---------------------------------------------------------------------------
  // Freezing a fork: grouping its buckets by test task
  // ---------------------------------------------------------------------------

  /** Map.getOrDefault(task, emptyList()). */
  function Lookup(m: map<TestTask, seq<TestBucket>>, task: TestTask): (r: seq<TestBucket>)
    ensures task in m ==> r == m[task]
    ensures task !in m ==> r == []
  {
    if task in m then m[task] else []
  }

  /** The buckets of a task, in their order. */
  function ForTask(bs: seq<TestBucket>, task: TestTask): seq<TestBucket>
  {
    if bs == [] then []
    else ForTask(bs[..|bs| - 1], task) + if bs[|bs| - 1].testTask == task then [bs[|bs| - 1]] else []
  }

  /** A task's buckets are exactly the fork's buckets of that task, each as often as it occurs. */
  lemma {:induction false} ForTaskCounts(bs: seq<TestBucket>, task: TestTask, b: TestBucket)
    ensures multiset(ForTask(bs, task))[b] == if b.testTask == task then multiset(bs)[b] else 0
  {
    if bs != [] {
      var front, last := bs[..|bs| - 1], bs[|bs| - 1];
      ForTaskCounts(front, task, b);
      assert bs == front + [last];
    }
  }

  /**
   * The forEach of freeze: each bucket in turn is appended to the list of
   * its task, the list being created when the task has none yet.
   */
  function GroupByTask(m: map<TestTask, seq<TestBucket>>, bs: seq<TestBucket>): (r: map<TestTask, seq<TestBucket>>)
    ensures m.Keys <= r.Keys
    ensures forall i :: 0 <= i < |bs| ==> bs[i].testTask in r
  {
    if bs == [] then m
    else
      var g := GroupByTask(m, bs[..|bs| - 1]);
      var last := bs[|bs| - 1];
      g[last.testTask := Lookup(g, last.testTask) + [last]]
  }

  /**
   * What freeze leaves for each task: what was there before followed by the
   * task's buckets in insertion order.
   */
  lemma {:induction false} GroupByTaskIsForTask(m: map<TestTask, seq<TestBucket>>, bs: seq<TestBucket>, task: TestTask)
    ensures Lookup(GroupByTask(m, bs), task) == Lookup(m, task) + ForTask(bs, task)
  {
    if bs != [] {
      var front, last := bs[..|bs| - 1], bs[|bs| - 1];
      GroupByTaskIsForTask(m, front, task);
      var x, y := Lookup(m, task), ForTask(front, task);
      if last.testTask == task {
        assert x + (y + [last]) == (x + y) + [last];
      } else {
        assert y + [] == y;
      }
    }
  }

  /** After freeze a task has a list exactly when it had one before or some bucket of the fork belongs to it. */
  lemma {:induction false} GroupByTaskKeys(m: map<TestTask, seq<TestBucket>>, bs: seq<TestBucket>, task: TestTask)
    ensures task in GroupByTask(m, bs) <==> task in m || exists i :: 0 <= i < |bs| && bs[i].testTask == task
  {
    if bs != [] {
      var front, last := bs[..|bs| - 1], bs[|bs| - 1];
      GroupByTaskKeys(m, front, task);
      if exists i :: 0 <= i < |bs| && bs[i].testTask == task {
        var i :| 0 <= i < |bs| && bs[i].testTask == task;
        if i < |front| {
          assert front[i] == bs[i];
        }
      }
      if exists i :: 0 <= i < |front| && front[i].testTask == task {
        var i :| 0 <= i < |front| && front[i].testTask == task;
        assert bs[i] == front[i];
      }
    }
  }

  /**
   * Freezing twice repeats every bucket: freeze appends to the lists it
   * finds, so a second call lists each bucket of the fork a second time.
   */
  lemma FreezeTwiceRepeats(m: map<TestTask, seq<TestBucket>>, bs: seq<TestBucket>, task: TestTask)
    ensures Lookup(GroupByTask(GroupByTask(m, bs), bs), task) == Lookup(m, task) + ForTask(bs, task) + ForTask(bs, task)
  {
    GroupByTaskIsForTask(m, bs, task);
    GroupByTaskIsForTask(GroupByTask(m, bs), bs, task);
    var x, y := Lookup(m, task), ForTask(bs, task);
    assert (x + y) + y == x + y + y;
  }

  /** The test names of a run of buckets, in order. */
  function Names(bs: seq<TestBucket>): (r: seq<string>)
    ensures |r| == |bs|
    ensures forall i :: 0 <= i < |bs| ==> r[i] == bs[i].testName
  {
    if bs == [] then [] else [bs[0].testName] + Names(bs[1..])
  }

  // ---------------------------------------------------------------------------
  // The greedy allocation
  // ---------------------------------------------------------------------------

  /**
   * Collections.min over the running durations: the first position of a
   * smallest duration (a later one replaces the candidate only when strictly
   * smaller).
   */
  function IndexOfMin(loads: seq<int>): (k: nat)
    requires |loads| > 0
    ensures k < |loads|
  {
    if |loads| == 1 then 0
    else
      var k := IndexOfMin(loads[..|loads| - 1]);
      if loads[|loads| - 1] < loads[k] then |loads| - 1 else k
  }

  /** The position picked holds a smallest load, and every earlier load is strictly larger. */
  lemma {:induction false} IndexOfMinIsFirstMin(loads: seq<int>)
    requires |loads| > 0
    ensures var k := IndexOfMin(loads);
            (forall i :: 0 <= i < |loads| ==> loads[k] <= loads[i]) &&
            (forall i :: 0 <= i < k ==> loads[i] > loads[k])
  {
    if |loads| > 1 {
      var front := loads[..|loads| - 1];
      IndexOfMinIsFirstMin(front);
      assert forall i :: 0 <= i < |front| ==> front[i] == loads[i];
    }
  }

  /** One more load: the candidate changes only for a strictly smaller load. */
  lemma IndexOfMinNext(loads: seq<int>, i: nat)
    requires 0 < i < |loads|
    ensures var k := IndexOfMin(loads[..i]);
            IndexOfMin(loads[..i + 1]) == if loads[i] < loads[k] then i else k
  {
    assert loads[..i + 1][..i] == loads[..i];
  }

  /** The running duration of every fork, from its buckets. */
  function Loads(contents: seq<seq<TestBucket>>): (r: seq<int>)
    ensures |r| == |contents|
  {
    if contents == [] then [] else [TotalDuration(contents[0])] + Loads(contents[1..])
  }

  /** Entry i of the loads is the total duration of fork i. */
  lemma {:induction false} LoadsAreTotals(contents: seq<seq<TestBucket>>, i: nat)
    requires i < |contents|
    ensures Loads(contents)[i] == TotalDuration(contents[i])
  {
    if i > 0 {
      LoadsAreTotals(contents[1..], i - 1);
    }
  }

  /** One step of allocateTestsToForks: the bucket is appended to the fork Collections.min picks. */
  function Place(contents: seq<seq<TestBucket>>, b: TestBucket): (r: seq<seq<TestBucket>>)
    requires |contents| > 0
    ensures |r| == |contents|
  {
    var k := IndexOfMin(Loads(contents));
    contents[k := contents[k] + [b]]
  }

  /** Place appends to the fork IndexOfMin picks. */
  lemma PlaceAt(contents: seq<seq<TestBucket>>, b: TestBucket, k: nat)
    requires |contents| > 0 && k == IndexOfMin(Loads(contents))
    ensures Place(contents, b) == contents[k := contents[k] + [b]]
  {
  }

  /**
   * The bucket goes to the first fork whose running duration is smallest;
   * no other fork changes.
   */
  lemma PlaceIsGreedy(contents: seq<seq<TestBucket>>, b: TestBucket)
    requires |contents| > 0
    ensures exists k :: 0 <= k < |contents| &&
              (forall i :: 0 <= i < |contents| ==> TotalDuration(contents[k]) <= TotalDuration(contents[i])) &&
              (forall i :: 0 <= i < k ==> TotalDuration(contents[i]) > TotalDuration(contents[k])) &&
              Place(contents, b) == contents[k := contents[k] + [b]]
  {
    var k := IndexOfMin(Loads(contents));
    IndexOfMinIsFirstMin(Loads(contents));
    forall i | 0 <= i < |contents|
      ensures Loads(contents)[i] == TotalDuration(contents[i])
    {
      LoadsAreTotals(contents, i);
    }
    PlaceAt(contents, b, k);
  }

  /** allocateTestsToForks on the forks' bucket lists: every bucket placed in turn. */
  function Allocate(contents: seq<seq<TestBucket>>, buckets: seq<TestBucket>): (r: seq<seq<TestBucket>>)
    requires |contents| > 0
    ensures |r| == |contents|
    decreases |buckets|
  {
    if buckets == [] then contents
    else Place(Allocate(contents, buckets[..|buckets| - 1]), buckets[|buckets| - 1])
  }

  /** Allocating one more bucket of a run is one more placement. */
  lemma AllocateNext(contents: seq<seq<TestBucket>>, buckets: seq<TestBucket>, j: nat)
    requires |contents| > 0 && j < |buckets|
    ensures Allocate(contents, buckets[..j + 1]) == Place(Allocate(contents, buckets[..j]), buckets[j])
  {
    assert buckets[..j + 1][..j] == buckets[..j];
  }

  /** All the buckets of all the forks, fork after fork. */
  function Flatten(contents: seq<seq<TestBucket>>): seq<TestBucket>
  {
    if contents == [] then [] else contents[0] + Flatten(contents[1..])
  }

  /** Appending a bucket to one fork adds just that bucket to the flattened plan. */
  lemma {:induction false} FlattenAppendAt(contents: seq<seq<TestBucket>>, k: nat, b: TestBucket)
    requires k < |contents|
    ensures multiset(Flatten(contents[k := contents[k] + [b]])) == multiset(Flatten(contents)) + multiset{b}
  {
    var u := contents[k := contents[k] + [b]];
    assert Flatten(u) == u[0] + Flatten(u[1..]);
    assert Flatten(contents) == contents[0] + Flatten(contents[1..]);
    if k == 0 {
      assert u[1..] == contents[1..];
      assert u[0] == contents[0] + [b];
    } else {
      assert u[1..] == contents[1..][k - 1 := contents[1..][k - 1] + [b]];
      FlattenAppendAt(contents[1..], k - 1, b);
    }
  }

  /** Replacing the bucket list of one fork replaces its share of the total duration. */
  lemma {:induction false} FlattenUpdateDuration(contents: seq<seq<TestBucket>>, k: nat, x: seq<TestBucket>)
    requires k < |contents|
    ensures TotalDuration(Flatten(contents[k := x])) ==
            TotalDuration(Flatten(contents)) - TotalDuration(contents[k]) + TotalDuration(x)
  {
    var u := contents[k := x];
    if k == 0 {
      assert u[1..] == contents[1..];
      assert Flatten(u) == x + Flatten(contents[1..]);
      TotalDurationAppend(x, Flatten(contents[1..]));
      TotalDurationAppend(contents[0], Flatten(contents[1..]));
    } else {
      assert u[1..] == contents[1..][k - 1 := x];
      FlattenUpdateDuration(contents[1..], k - 1, x);
      TotalDurationAppend(contents[0], Flatten(u[1..]));
      TotalDurationAppend(contents[0], Flatten(contents[1..]));
    }
  }

  /** Placing a bucket adds just that bucket to the forks. */
  lemma PlaceKeepsEveryBucket(contents: seq<seq<TestBucket>>, b: TestBucket)
    requires |contents| > 0
    ensures multiset(Flatten(Place(contents, b))) == multiset(Flatten(contents)) + multiset{b}
  {
    FlattenAppendAt(contents, IndexOfMin(Loads(contents)), b);
  }

  /**
   * The allocation loses no bucket and adds no other: the forks together
   * hold what they held before and the allocated buckets.
   */
  lemma {:induction false} AllocateKeepsEveryBucket(contents: seq<seq<TestBucket>>, buckets: seq<TestBucket>)
    requires |contents| > 0
    ensures multiset(Flatten(Allocate(contents, buckets))) == multiset(Flatten(contents)) + multiset(buckets)
    decreases |buckets|
  {
    if buckets != [] {
      var front, b := buckets[..|buckets| - 1], buckets[|buckets| - 1];
      AllocateKeepsEveryBucket(contents, front);
      AllocateLast(contents, buckets);
      PlaceKeepsEveryBucket(Allocate(contents, front), b);
      LastSplit(buckets);
      MultisetAssoc(multiset(Flatten(contents)), multiset(front), multiset{b});
    }
  }

  /** Allocating a non-empty run places its last bucket after allocating the rest. */
  lemma AllocateLast(contents: seq<seq<TestBucket>>, buckets: seq<TestBucket>)
    requires |contents| > 0 && buckets != []
    ensures Allocate(contents, buckets) == Place(Allocate(contents, buckets[..|buckets| - 1]), buckets[|buckets| - 1])
  {
  }

  lemma MultisetAssoc(a: multiset<TestBucket>, b: multiset<TestBucket>, c: multiset<TestBucket>)
    ensures (a + b) + c == a + (b + c)
  {
  }

  /** The forks' running durations together grow by exactly the allocated buckets' durations. */
  lemma {:induction false} AllocateAddsDurations(contents: seq<seq<TestBucket>>, buckets: seq<TestBucket>)
    requires |contents| > 0
    ensures TotalDuration(Flatten(Allocate(contents, buckets))) == TotalDuration(Flatten(contents)) + TotalDuration(buckets)
    decreases |buckets|
  {
    if buckets != [] {
      var front, b := buckets[..|buckets| - 1], buckets[|buckets| - 1];
      var before := Allocate(contents, front);
      AllocateAddsDurations(contents, front);
      var k := IndexOfMin(Loads(before));
      FlattenUpdateDuration(before, k, before[k] + [b]);
      TotalDurationAppend(before[k], [b]);
    }
  }

  /** The allocation only appends: every fork's earlier buckets stay first, in order. */
  lemma {:induction false} AllocateOnlyAppends(contents: seq<seq<TestBucket>>, buckets: seq<TestBucket>, i: nat)
    requires |contents| > 0 && i < |contents|
    ensures contents[i] <= Allocate(contents, buckets)[i]
    decreases |buckets|
  {
    if buckets != [] {
      AllocateOnlyAppends(contents, buckets[..|buckets| - 1], i);
    }
  }
}
