/**
 * BucketingAllocator and its TestsForForkContainer: the objects that hold
 * the plan while it is built. A container keeps the buckets given to one
 * fork and their running duration; the allocator owns one container per
 * fork, allocates the matched buckets greedily and freezes every container.
 */
module Bucketing {
  import opened TestPlan

  datatype Option<T> = None | Some(value: T)

  /** TestsForForkContainer: the buckets of one fork, their running duration and, once frozen, the buckets per task. */
  class TestsForForkContainer {
    const forkIdx: int
    var testsForFork: seq<TestBucket>
    var frozenTests: map<TestTask, seq<TestBucket>>
    var runningDuration: int

    /** The running duration is the sum of the durations of the fork's buckets. */
    ghost predicate Valid()
      reads this
    {
      runningDuration == TotalDuration(testsForFork)
    }

    /** A new container: no buckets, nothing frozen, a running duration of 0. */
    constructor (forkIdx: int)
      ensures this.forkIdx == forkIdx
      ensures testsForFork == [] && frozenTests == map[] && runningDuration == 0
      ensures Valid()
    {
      this.forkIdx := forkIdx;
      testsForFork := [];
      frozenTests := map[];
      runningDuration := 0;
    }

    /** addBucket: the bucket goes last and the running duration grows by its duration. */
    method AddBucket(tb: TestBucket)
      modifies this
      ensures testsForFork == old(testsForFork) + [tb]
      ensures runningDuration == old(runningDuration) + tb.durationNanos
      ensures frozenTests == old(frozenTests)
      ensures old(Valid()) ==> Valid()
    {
      testsForFork := testsForFork + [tb];
      runningDuration := runningDuration + tb.durationNanos;
      assert testsForFork[..|testsForFork| - 1] == old(testsForFork);
    }

    /** getCurrentDuration: the running duration, which is the buckets' total. */
    method GetCurrentDuration() returns (d: int)
      requires Valid()
      ensures d == TotalDuration(testsForFork)
    {
      d := runningDuration;
    }

    /**
     * freeze: every bucket in turn is appended to the list of its task in
     * frozenTests; the buckets and the running duration do not change.
     */
    method Freeze()
      modifies this
      ensures frozenTests == GroupByTask(old(frozenTests), testsForFork)
      ensures testsForFork == old(testsForFork) && runningDuration == old(runningDuration)
    {
      var i := 0;
      while i < |testsForFork|
        invariant i <= |testsForFork|
        invariant frozenTests == GroupByTask(old(frozenTests), testsForFork[..i])
        invariant testsForFork == old(testsForFork) && runningDuration == old(runningDuration)
      {
        var tb := testsForFork[i];
        assert testsForFork[..i + 1][..i] == testsForFork[..i];
        var list := if tb.testTask in frozenTests then frozenTests[tb.testTask] else [];
        frozenTests := frozenTests[tb.testTask := list + [tb]];
        i := i + 1;
      }
      assert testsForFork[..i] == testsForFork;
    }

    /** getTestsForTask: the names of the task's frozen buckets in order; none for a task never frozen. */
    function GetTestsForTask(task: TestTask): (r: seq<string>)
      reads this
      ensures task !in frozenTests ==> r == []
      ensures task in frozenTests ==>
                |r| == |frozenTests[task]| && forall i :: 0 <= i < |r| ==> r[i] == frozenTests[task][i].testName
    {
      Names(Lookup(frozenTests, task))
    }

    /** getBucketsForFork: a copy of the fork's buckets, in allocation order. */
    method GetBucketsForFork() returns (r: seq<TestBucket>)
      ensures r == testsForFork
    {
      r := testsForFork;
    }
  }

  /** A container frozen once from nothing lists, for each task, the names of that task's buckets in the fork's order. */
  lemma FrozenOnceListsTaskBuckets(c: TestsForForkContainer, task: TestTask)
    requires c.frozenTests == GroupByTask(map[], c.testsForFork)
    ensures c.GetTestsForTask(task) == Names(ForTask(c.testsForFork, task))
  {
    GroupByTaskIsForTask(map[], c.testsForFork, task);
    assert Lookup(map[], task) + ForTask(c.testsForFork, task) == ForTask(c.testsForFork, task);
  }

  /** BucketingAllocator: one container per fork and the registered test sources. */
  class BucketingAllocator {
    const forkContainers: seq<TestsForForkContainer>
    var sources: seq<Source>

    /** The containers are distinct, each holds its running total, and container i is fork i. */
    ghost predicate Valid()
      reads this, forkContainers
    {
      (forall i, j :: 0 <= i < j < |forkContainers| ==> forkContainers[i] != forkContainers[j]) &&
      (forall i :: 0 <= i < |forkContainers| ==> forkContainers[i].Valid() && forkContainers[i].forkIdx == i)
    }

    /** The buckets of every fork, fork by fork. */
    ghost function Contents(): (r: seq<seq<TestBucket>>)
      reads this, forkContainers
      ensures |r| == |forkContainers|
      ensures forall i :: 0 <= i < |forkContainers| ==> r[i] == forkContainers[i].testsForFork
    {
      seq(|forkContainers|, i reads forkContainers requires 0 <= i < |forkContainers| => forkContainers[i].testsForFork)
    }

    /**
     * The constructor: IntStream.range(0, forkCount) makes one fresh, empty
     * container per fork index, none when forkCount is not positive.
     */
    constructor (forkCount: int)
      ensures |forkContainers| == if forkCount > 0 then forkCount else 0
      ensures forall i :: 0 <= i < |forkContainers| ==>
                fresh(forkContainers[i]) && forkContainers[i].testsForFork == [] &&
                forkContainers[i].frozenTests == map[] && forkContainers[i].runningDuration == 0
      ensures sources == []
      ensures Valid()
    {
      var cs: seq<TestsForForkContainer> := [];
      var i := 0;
      while i < forkCount
        invariant 0 <= i == |cs| && i <= if forkCount > 0 then forkCount else 0
        invariant forall k :: 0 <= k < |cs| ==>
                    fresh(cs[k]) && cs[k].forkIdx == k && cs[k].testsForFork == [] &&
                    cs[k].frozenTests == map[] && cs[k].runningDuration == 0
        invariant forall k, l :: 0 <= k < l < |cs| ==> cs[k] != cs[l]
      {
        var c := new TestsForForkContainer(i);
        cs := cs + [c];
        i := i + 1;
      }
      forkContainers := cs;
      sources := [];
    }

    /** addSource: the lister's tests and their task are registered last. */
    method AddSource(tests: seq<string>, testTask: TestTask)
      modifies this
      ensures sources == old(sources) + [(tests, testTask)]
    {
      sources := sources + [(tests, testTask)];
    }

    /** getTestsForForkAndTestTask: the task's tests on that fork; None where forkContainers.get fails. */
    function GetTestsForForkAndTestTask(fork: int, testTask: TestTask): (r: Option<seq<string>>)
      reads forkContainers
      ensures r.None? <==> !(0 <= fork < |forkContainers|)
      ensures r.Some? ==> r.value == forkContainers[fork].GetTestsForTask(testTask)
    {
      if 0 <= fork < |forkContainers| then Some(forkContainers[fork].GetTestsForTask(testTask)) else None
    }

    /** The running duration of every container, fork by fork. */
    ghost function Durations(): (r: seq<int>)
      reads this, forkContainers
      ensures |r| == |forkContainers|
      ensures forall i :: 0 <= i < |forkContainers| ==> r[i] == forkContainers[i].runningDuration
    {
      seq(|forkContainers|, i reads forkContainers requires 0 <= i < |forkContainers| => forkContainers[i].runningDuration)
    }

    /** Collections.min over the containers by running duration: the first smallest. */
    method SmallestContainer() returns (k: nat)
      requires |forkContainers| > 0
      ensures k == IndexOfMin(Durations())
    {
      ghost var durations := Durations();
      k := 0;
      var i := 1;
      while i < |forkContainers|
        invariant 1 <= i <= |forkContainers| && k < i
        invariant k == IndexOfMin(durations[..i])
      {
        IndexOfMinNext(durations, i);
        if forkContainers[i].runningDuration < forkContainers[k].runningDuration {
          k := i;
        }
        i := i + 1;
      }
      assert durations[..i] == durations;
    }

    /** The loads Collections.min compares are the containers' running durations. */
    lemma LoadsAreDurations()
      requires Valid()
      ensures Loads(Contents()) == Durations()
    {
      forall i | 0 <= i < |forkContainers|
        ensures Loads(Contents())[i] == Durations()[i]
      {
        LoadsAreTotals(Contents(), i);
      }
    }

    /** One step of allocateTestsToForks: the bucket goes to the container with the smallest running duration. */
    method PlaceBucket(b: TestBucket)
      requires Valid() && |forkContainers| > 0
      modifies forkContainers
      ensures Valid()
      ensures Contents() == Place(old(Contents()), b)
      ensures forall i :: 0 <= i < |forkContainers| ==> forkContainers[i].frozenTests == old(forkContainers[i].frozenTests)
    {
      ghost var before := Contents();
      var k := SmallestContainer();
      LoadsAreDurations();
      assert Contents() == before;
      PlaceAt(before, b, k);
      AddTo(k, b);
    }

    /** `forkContainers.get(k).addBucket(b)`: container k alone gets the bucket. */
    method AddTo(k: nat, b: TestBucket)
      requires Valid() && k < |forkContainers|
      modifies forkContainers[k]
      ensures Valid()
      ensures Contents() == old(Contents())[k := old(Contents())[k] + [b]]
      ensures forall i :: 0 <= i < |forkContainers| ==> forkContainers[i].frozenTests == old(forkContainers[i].frozenTests)
    {
      ghost var before := Contents();
      forkContainers[k].AddBucket(b);
      assert Contents() == before[k := before[k] + [b]];
    }

    /**
     * allocateTestsToForks: each matched bucket in turn goes to the smallest
     * container. With no containers Collections.min throws on the first
     * bucket (ok is false) and nothing changes.
     */
    method AllocateTestsToForks(matched: seq<TestBucket>) returns (ok: bool)
      requires Valid()
      modifies forkContainers
      ensures Valid()
      ensures ok <==> |forkContainers| > 0 || matched == []
      ensures ok && |forkContainers| > 0 ==> Contents() == Allocate(old(Contents()), matched)
      ensures !ok || |forkContainers| == 0 ==> Contents() == old(Contents())
      ensures forall i :: 0 <= i < |forkContainers| ==> forkContainers[i].frozenTests == old(forkContainers[i].frozenTests)
    {
      if |forkContainers| == 0 {
        return matched == [];
      }
      var j := 0;
      while j < |matched|
        invariant j <= |matched|
        invariant Valid()
        invariant Contents() == Allocate(old(Contents()), matched[..j])
        invariant forall i :: 0 <= i < |forkContainers| ==> forkContainers[i].frozenTests == old(forkContainers[i].frozenTests)
      {
        PlaceBucket(matched[j]);
        AllocateNext(old(Contents()), matched, j);
        j := j + 1;
      }
      assert matched[..j] == matched;
      ok := true;
    }

    /**
     * generateTestPlan: match the discovered tests to the recorded ones,
     * allocate the buckets, then freeze every container (the printed summary
     * is not modelled). The recorded test durations come in as startsWith
     * and meanDuration.
     */
    method GenerateTestPlan(startsWith: string -> seq<FoundTest>, meanDuration: int) returns (ok: bool)
      requires Valid()
      modifies forkContainers
      ensures Valid()
      ensures ok <==> |forkContainers| > 0 || sources == [] ||
                      MatchTestsToFile(TestsOnClasspath(sources), startsWith, meanDuration) == []
      ensures ok && |forkContainers| > 0 ==>
                Contents() == Allocate(old(Contents()), MatchTestsToFile(TestsOnClasspath(sources), startsWith, meanDuration))
      ensures ok ==> forall i :: 0 <= i < |forkContainers| ==>
                forkContainers[i].frozenTests == GroupByTask(old(forkContainers[i].frozenTests), forkContainers[i].testsForFork)
    {
      var discovered := TestsOnClasspath(sources);
      var matched := MatchTestsToFile(discovered, startsWith, meanDuration);
      ok := AllocateTestsToForks(matched);
      if ok {
        FreezeAll();
      }
    }

    /** `forkContainers.forEach(TestsForForkContainer::freeze)`: every container frozen once. */
    method FreezeAll()
      requires Valid()
      modifies forkContainers
      ensures Valid()
      ensures Contents() == old(Contents())
      ensures forall i :: 0 <= i < |forkContainers| ==>
                forkContainers[i].frozenTests == GroupByTask(old(forkContainers[i].frozenTests), forkContainers[i].testsForFork)
    {
      var i := 0;
      while i < |forkContainers|
        invariant i <= |forkContainers|
        invariant forall k :: 0 <= k < |forkContainers| ==>
                    forkContainers[k].testsForFork == old(forkContainers[k].testsForFork) &&
                    forkContainers[k].runningDuration == old(forkContainers[k].runningDuration)
        invariant forall k :: 0 <= k < i ==>
                    forkContainers[k].frozenTests == GroupByTask(old(forkContainers[k].frozenTests), forkContainers[k].testsForFork)
        invariant forall k :: i <= k < |forkContainers| ==> forkContainers[k].frozenTests == old(forkContainers[k].frozenTests)
      {
        var c := forkContainers[i];
        assert forall k :: 0 <= k < |forkContainers| && k != i ==> forkContainers[k] != c;
        c.Freeze();
        i := i + 1;
      }
    }
  }
}
