// What the test-corpus ratchet bounds over sequences of merges, each checked against the revision
// that it is merged into.
module CorpusMerges {
  import opened Options
  import opened TestCorpus

  // A revision: its tracked paths, their sizes, and its committed ceilings.
  datatype Revision = Revision(files: seq<string>, sizes: map<string, nat>, budget: Option<Frozen>)

  ghost predicate Tracked(files: seq<string>) {
    forall i, j :: 0 <= i < j < |files| ==> files[i] != files[j]
  }

  function SizeOf(r: Revision): string -> Option<nat> {
    path => if path in r.sizes then Some(r.sizes[path]) else None
  }

  function MetricsOf(classify: string -> Option<Bucket>, r: Revision): (m: Metrics)
    ensures forall key :: m.At(key) == Sum(r.files, classify, SizeOf(r), key)
  {
    Built(key => Sum(r.files, classify, SizeOf(r), key))
  }

  function TestPaths(classify: string -> Option<Bucket>, files: seq<string>): set<string> {
    set path | path in files && classify(path) == Some(Test)
  }

  predicate Whole(budget: Frozen) {
    TestFiles in budget && TestBytes in budget && SupportFiles in budget && SupportBytes in budget && FixtureBytes in budget
  }

  function AsMetrics(budget: Frozen): (m: Metrics)
    requires Whole(budget)
    ensures forall key :: key in budget && m.At(key) == budget[key]
  {
    assert forall key :: key in budget by {
      forall key
        ensures key in budget
      {
        assert key.TestFiles? || key.TestBytes? || key.SupportFiles? || key.SupportBytes? || key.FixtureBytes?;
      }
    }
    Metrics(budget[TestFiles], budget[TestBytes], budget[SupportFiles], budget[SupportBytes], budget[FixtureBytes])
  }

  function CheckedOut(r: Revision): Option<Metrics>
    requires r.budget.Some? ==> Whole(r.budget.value)
  {
    if r.budget.Some? then Some(AsMetrics(r.budget.value)) else None
  }

  // The check of one merge without override. It stops at a path that it cannot size; a checked-out
  // file that does not name every metric is a usage error.
  function MergeRun(classify: string -> Option<Bucket>, base: Revision, head: Revision): Option<Run> {
    if Unreadable(head.files, classify, SizeOf(head)) != [] || Unreadable(base.files, classify, SizeOf(base)) != [] then None
    else if head.budget.Some? && !Whole(head.budget.value) then None
    else
      var baseMetrics := MetricsOf(classify, base);
      var ceilings :- ResolveCeilings(CheckedOut(head), base.budget, Some(baseMetrics));
      Some(Run(
        MetricsOf(classify, head), ceilings,
        Some(|TestPaths(classify, head.files) - TestPaths(classify, base.files)|),
        |TestPaths(classify, base.files) - TestPaths(classify, head.files)|,
        false, Some(baseMetrics), base.budget, head.budget.None? && base.budget.Some?))
  }

  predicate Passes(classify: string -> Option<Bucket>, base: Revision, head: Revision) {
    var run := MergeRun(classify, base, head);
    run.Some? && Findings(run.value) == []
  }

  // With a base to measure, ceilings always resolve: no merge fails for want of a budget.
  lemma BaseResolves(checkedOut: Option<Metrics>, frozen: Option<Frozen>, base: Metrics)
    ensures ResolveCeilings(checkedOut, frozen, Some(base)).Some?
  {
  }

  lemma TestPathsGrow(classify: string -> Option<Bucket>, files: seq<string>, last: string)
    requires last !in files
    ensures |TestPaths(classify, files + [last])| ==
      |TestPaths(classify, files)| + if classify(last) == Some(Test) then 1 else 0
  {
    assert TestPaths(classify, files + [last]) == TestPaths(classify, files) + if classify(last) == Some(Test) then {last} else {};
    assert last !in TestPaths(classify, files);
  }

  lemma {:induction false} ReadableGrows(files: seq<string>, classify: string -> Option<Bucket>, sizeOf: string -> Option<nat>)
    requires files != [] && Unreadable(files, classify, sizeOf) == []
    ensures var n := |files| - 1;
      && Unreadable(files[..n], classify, sizeOf) == []
      && Sum(files, classify, sizeOf, TestFiles) ==
        Sum(files[..n], classify, sizeOf, TestFiles) + if classify(files[n]) == Some(Test) then 1 else 0
  {
  }

  // The metric counts exactly the test paths of a readable tree.
  lemma {:induction false} TestFilesCounted(
    files: seq<string>, classify: string -> Option<Bucket>, sizeOf: string -> Option<nat>)
    requires Tracked(files) && Unreadable(files, classify, sizeOf) == []
    ensures Sum(files, classify, sizeOf, TestFiles) == |TestPaths(classify, files)|
  {
    if files == [] {
      assert TestPaths(classify, files) == {};
    } else {
      hide TestPaths, Sum, Unreadable;
      var n := |files| - 1;
      ReadableGrows(files, classify, sizeOf);
      TestFilesCounted(files[..n], classify, sizeOf);
      assert files == files[..n] + [files[n]];
      TestPathsGrow(classify, files[..n], files[n]);
    }
  }

  lemma SizesOfDifferences<T>(a: set<T>, b: set<T>)
    ensures |a - b| - |b - a| == |a| - |b|
  {
    assert a == (a - b) + (a * b);
    assert b == (b - a) + (a * b);
  }

  // Net new files are the growth of the metric, so that the cap is a cap on that growth.
  lemma NetIsGrowth(classify: string -> Option<Bucket>, base: Revision, head: Revision)
    requires Tracked(base.files) && Tracked(head.files) && MergeRun(classify, base, head).Some?
    ensures var run := MergeRun(classify, base, head).value;
      run.added.value - run.removed == run.metrics.testFiles - MetricsOf(classify, base).testFiles
  {
    var run := MergeRun(classify, base, head).value;
    TestFilesCounted(base.files, classify, SizeOf(base));
    TestFilesCounted(head.files, classify, SizeOf(head));
    SizesOfDifferences(TestPaths(classify, head.files), TestPaths(classify, base.files));
    assert run.metrics.At(TestFiles) == run.metrics.testFiles;
    assert MetricsOf(classify, base).At(TestFiles) == MetricsOf(classify, base).testFiles;
  }

  // One merge that passes, for a metric whose ceiling the base names.
  lemma PassingMerge(classify: string -> Option<Bucket>, base: Revision, head: Revision, key: Key)
    requires Passes(classify, base, head) && base.budget.Some? && key in base.budget.value
    ensures head.budget.Some? && key in head.budget.value && head.budget.value[key] <= base.budget.value[key]
    ensures MetricsOf(classify, head).At(key) <= Max(base.budget.value[key], MetricsOf(classify, base).At(key))
  {
    var run := MergeRun(classify, base, head).value;
    PassingMeans(run);
    hide *;
    RunOfMerge(classify, base, head);
    KeyWithin(run, key);
  }

  lemma KeyWithin(run: Run, key: Key)
    requires !Raises(run, key) && !Exceeds(run, key) && run.baseMetrics.Some? && run.baseBudget.Some? && key in run.baseBudget.value
    ensures run.budget.At(key) <= run.baseBudget.value[key]
    ensures run.metrics.At(key) <= Max(run.baseBudget.value[key], run.baseMetrics.value.At(key))
  {
  }

  lemma RunOfMerge(classify: string -> Option<Bucket>, base: Revision, head: Revision)
    requires MergeRun(classify, base, head).Some?
    ensures var run := MergeRun(classify, base, head).value;
      && !run.override && run.metrics == MetricsOf(classify, head)
      && run.baseMetrics == Some(MetricsOf(classify, base)) && run.baseBudget == base.budget
      && (base.budget.Some? && head.budget.None? ==> run.deleted)
      && (head.budget.Some? ==> forall key :: key in head.budget.value && run.budget.At(key) == head.budget.value[key])
  {
    hide MetricsOf, Unreadable, TestPaths;
  }

  lemma PassingMergeAdds(classify: string -> Option<Bucket>, base: Revision, head: Revision)
    requires Passes(classify, base, head) && Tracked(base.files) && Tracked(head.files)
    ensures MetricsOf(classify, head).testFiles <= MetricsOf(classify, base).testFiles + MAX_NEW_TEST_FILES
  {
    PassingMeans(MergeRun(classify, base, head).value);
    NetIsGrowth(classify, base, head);
  }

  // Any sequence of merges that pass without override.
  ghost predicate History(classify: string -> Option<Bucket>, revisions: seq<Revision>) {
    && revisions != []
    && (forall r :: r in revisions ==> Tracked(r.files))
    && forall i :: 0 <= i < |revisions| - 1 ==> Passes(classify, revisions[i], revisions[i + 1])
  }

  // Over any history, the ceiling of a metric that the first revision names never rises, and the
  // metric never exceeds the larger of that ceiling and its first measurement.
  lemma {:induction false} HistoryBounds(classify: string -> Option<Bucket>, revisions: seq<Revision>, key: Key, i: nat)
    requires History(classify, revisions) && i < |revisions|
    requires revisions[0].budget.Some? && key in revisions[0].budget.value
    ensures revisions[i].budget.Some? && key in revisions[i].budget.value
    ensures i > 0 ==> var before := revisions[i - 1].budget;
      before.Some? && key in before.value && revisions[i].budget.value[key] <= before.value[key]
    ensures revisions[i].budget.value[key] <= revisions[0].budget.value[key]
    ensures MetricsOf(classify, revisions[i]).At(key) <=
      Max(revisions[0].budget.value[key], MetricsOf(classify, revisions[0]).At(key))
  {
    hide Passes, MetricsOf;
    if i > 0 {
      HistoryBounds(classify, revisions, key, i - 1);
      PassingMerge(classify, revisions[i - 1], revisions[i], key);
    }
  }

  // After `i` merges there are at most twice as many more test files.
  lemma {:induction false} HistoryAdds(classify: string -> Option<Bucket>, revisions: seq<Revision>, i: nat)
    requires History(classify, revisions) && i < |revisions|
    ensures MetricsOf(classify, revisions[i]).testFiles <= MetricsOf(classify, revisions[0]).testFiles + 2 * i
  {
    hide Passes, MetricsOf;
    if i > 0 {
      HistoryAdds(classify, revisions, i - 1);
      assert revisions[i - 1] in revisions && revisions[i] in revisions;
      PassingMergeAdds(classify, revisions[i - 1], revisions[i]);
    }
  }

  // `--update`: each ceiling becomes the corpus plus slack, unless it was lower.
  function Updated(previous: Option<Metrics>, current: Metrics): Metrics {
    Built(key =>
      if previous.Some? then Min(previous.value.At(key), current.At(key) + SLACK.At(key)) else current.At(key) + SLACK.At(key))
  }

  function Budget(m: Metrics): (b: Frozen)
    ensures Whole(b) && AsMetrics(b) == m
  {
    map[
      TestFiles := m.testFiles, TestBytes := m.testBytes, SupportFiles := m.supportFiles,
      SupportBytes := m.supportBytes, FixtureBytes := m.fixtureBytes]
  }

  function WithUpdate(classify: string -> Option<Bucket>, r: Revision): Revision
    requires r.budget.Some? ==> Whole(r.budget.value)
  {
    r.(budget := Some(Budget(Updated(CheckedOut(r), MetricsOf(classify, r)))))
  }

  // An update raises no ceiling, a second one changes nothing, and a merge that passes still passes
  // when the update is part of it.
  lemma UpdateNeverRaises(previous: Metrics, current: Metrics)
    ensures forall key :: Updated(Some(previous), current).At(key) <= previous.At(key)
    ensures Updated(Some(Updated(Some(previous), current)), current) == Updated(Some(previous), current)
  {
  }

  // The headroom of each metric, as an update leaves it.
  function Headroom(key: Key): nat {
    match key
    case TestFiles => 4
    case TestBytes => 65_536
    case SupportFiles => 2
    case SupportBytes => 65_536
    case FixtureBytes => 65_536
  }

  // An update lowers each ceiling to what leaves that headroom, and no further.
  lemma UpdateMeans(previous: Option<Metrics>, current: Metrics, key: Key)
    ensures var ceiling := Updated(previous, current).At(key);
      && ceiling <= current.At(key) + Headroom(key)
      && (previous.None? ==> ceiling == current.At(key) + Headroom(key))
      && (previous.Some? ==> ceiling == previous.value.At(key) || (ceiling == current.At(key) + Headroom(key) < previous.value.At(key)))
  {
    assert SLACK.At(key) == Headroom(key);
  }

  function UpdatedRun(run: Run, checkedOut: Option<Metrics>): Run {
    run.(budget := Updated(checkedOut, run.metrics), deleted := false)
  }

  lemma UpdatedRunPasses(run: Run, checkedOut: Option<Metrics>)
    requires Findings(run) == [] && !run.override
    requires if checkedOut.Some? then run.budget == checkedOut.value else run.baseBudget.None?
    ensures Findings(UpdatedRun(run, checkedOut)) == []
  {
    hide Findings;
    PassingMeans(run);
    PassingMeans(UpdatedRun(run, checkedOut));
    forall key
      ensures !Raises(UpdatedRun(run, checkedOut), key) && !Exceeds(UpdatedRun(run, checkedOut), key)
    {
      assert !Raises(run, key) && !Exceeds(run, key);
    }
  }

  lemma UpdateKeepsPassing(classify: string -> Option<Bucket>, base: Revision, head: Revision)
    requires Passes(classify, base, head)
    ensures Passes(classify, base, WithUpdate(classify, head))
  {
    var updated := WithUpdate(classify, head);
    var before := MergeRun(classify, base, head).value;
    PassingMeans(before);
    UpdatedRunPasses(before, CheckedOut(head));
    hide MetricsOf, Unreadable, TestPaths, Findings, Sum;
    BaseResolves(CheckedOut(updated), base.budget, MetricsOf(classify, base));
    assert MergeRun(classify, base, updated).value == UpdatedRun(before, CheckedOut(head));
  }

  // Which metrics one merge bounds. Enough paths of every kind can be had.
  ghost predicate Plentiful(classify: string -> Option<Bucket>) {
    forall bucket: Bucket, n: nat :: Has(classify, bucket, n)
  }

  ghost predicate Has(classify: string -> Option<Bucket>, bucket: Bucket, n: nat) {
    exists paths :: Paths(classify, bucket, n, paths)
  }

  ghost predicate Paths(classify: string -> Option<Bucket>, bucket: Bucket, n: nat, paths: seq<string>) {
    |paths| == n && Tracked(paths) && forall i :: 0 <= i < n ==> classify(paths[i]) == Some(bucket)
  }

  predicate Names(r: Revision, key: Key) {
    r.budget.Some? && key in r.budget.value
  }

  // A named metric that is nothing and may be nothing keeps its bucket empty.
  ghost predicate Empty(classify: string -> Option<Bucket>, base: Revision, key: Key) {
    Names(base, key) && base.budget.value[key] == 0 && MetricsOf(classify, base).At(key) == 0
  }

  // The bucket of a metric, and the metric that counts the files there, if one does.
  function BucketOf(key: Key): Bucket {
    match key
    case TestFiles => Test
    case TestBytes => Test
    case SupportFiles => Support
    case SupportBytes => Support
    case FixtureBytes => Fixture
  }

  function CounterOf(key: Key): Option<Key> {
    match key
    case TestBytes => Some(TestFiles)
    case SupportBytes => Some(SupportFiles)
    case _ => None
  }

  ghost predicate Bounds(classify: string -> Option<Bucket>, base: Revision, key: Key, n: nat) {
    forall head: Revision :: Tracked(head.files) && Passes(classify, base, head) ==> MetricsOf(classify, head).At(key) <= n
  }

  // The same number of bytes under each path.
  function Sized(paths: seq<string>, size: nat): Revision {
    Revision(paths, map path | path in paths :: size, None)
  }

  function Times(n: nat, share: nat): nat {
    if n == 0 then 0 else Times(n - 1, share) + share
  }

  lemma {:induction false} TimesMeans(n: nat, share: nat)
    ensures Times(n, 0) == 0 && Times(1, share) == share && Times(n, 1) == n
  {
    assert Times(1, share) == Times(0, share) + share;
    if n > 0 {
      TimesMeans(n - 1, share);
    }
  }

  lemma {:induction false} SizedSum(
    classify: string -> Option<Bucket>, bucket: Bucket, paths: seq<string>, sizeOf: string -> Option<nat>, size: nat, key: Key)
    requires forall i :: 0 <= i < |paths| ==> classify(paths[i]) == Some(bucket) && sizeOf(paths[i]) == Some(size)
    ensures Unreadable(paths, classify, sizeOf) == []
    ensures Sum(paths, classify, sizeOf, key) == Times(|paths|, Share(Some(bucket), Some(size), key))
  {
    hide Share;
    if paths != [] {
      var n := |paths| - 1;
      SizedSum(classify, bucket, paths[..n], sizeOf, size, key);
      assert classify(paths[n]) == Some(bucket) && sizeOf(paths[n]) == Some(size);
    }
  }

  // The budget that keeps every named ceiling and otherwise fits the tree.
  function Fitting(base: Revision, m: Metrics): (b: Metrics)
    ensures forall key :: b.At(key) == if Names(base, key) then base.budget.value[key] else m.At(key)
  {
    Built(key => if Names(base, key) then base.budget.value[key] else m.At(key))
  }

  function Fitted(classify: string -> Option<Bucket>, base: Revision, tree: Revision): Revision {
    tree.(budget := Some(Budget(Fitting(base, MetricsOf(classify, tree)))))
  }

  // A tree that keeps within the named metrics and the cap passes with that budget.
  lemma FittedPasses(classify: string -> Option<Bucket>, base: Revision, tree: Revision)
    requires Unreadable(base.files, classify, SizeOf(base)) == [] && Unreadable(tree.files, classify, SizeOf(tree)) == []
    requires |TestPaths(classify, tree.files) - TestPaths(classify, base.files)| <= MAX_NEW_TEST_FILES
    requires forall key :: Names(base, key) ==>
      MetricsOf(classify, tree).At(key) <= Max(base.budget.value[key], MetricsOf(classify, base).At(key))
    ensures Passes(classify, base, Fitted(classify, base, tree))
    ensures MetricsOf(classify, Fitted(classify, base, tree)) == MetricsOf(classify, tree)
  {
    var head := Fitted(classify, base, tree);
    BaseResolves(CheckedOut(head), base.budget, MetricsOf(classify, base));
    assert SizeOf(head) == SizeOf(tree);
    hide MetricsOf, Unreadable, TestPaths, Findings, Fitting;
    var run := MergeRun(classify, base, head).value;
    PassingMeans(run);
  }

  lemma FewTestPaths(classify: string -> Option<Bucket>, bucket: Bucket, paths: seq<string>, others: set<string>)
    requires forall i :: 0 <= i < |paths| ==> classify(paths[i]) == Some(bucket)
    requires bucket != Test || |paths| == 1
    ensures |TestPaths(classify, paths) - others| <= MAX_NEW_TEST_FILES
  {
    if bucket == Test {
      assert TestPaths(classify, paths) - others <= {paths[0]};
      SubsetSize(TestPaths(classify, paths) - others, {paths[0]});
    } else {
      assert TestPaths(classify, paths) - others == {};
    }
  }

  lemma SubsetSize<T>(a: set<T>, b: set<T>)
    requires a <= b
    ensures |a| <= |b|
  {
    SizesOfDifferences(a, b);
    assert a - b == {};
  }

  // A base that does not name a metric lets one merge grow it as far as it likes, unless the metric
  // is the number of test files, or counts bytes in a bucket that must stay empty.
  lemma UnnamedMetricUnbounded(classify: string -> Option<Bucket>, base: Revision, key: Key, size: nat) returns (head: Revision)
    requires Plentiful(classify) && Unreadable(base.files, classify, SizeOf(base)) == []
    requires key != TestFiles && !Names(base, key)
    requires CounterOf(key).Some? ==> !Empty(classify, base, CounterOf(key).value)
    ensures Tracked(head.files) && Passes(classify, base, head) && MetricsOf(classify, head).At(key) == size
  {
    var n, bytes := if key.SupportFiles? then size else 1, if key.SupportFiles? then 0 else size;
    var bucket := BucketOf(key);
    assert Has(classify, bucket, n);
    var paths :| Paths(classify, bucket, n, paths);
    hide Plentiful;
    var tree := Sized(paths, bytes);
    SizedTree(classify, bucket, paths, bytes);
    FewTestPaths(classify, bucket, paths, TestPaths(classify, base.files));
    hide *;
    OneBucketWithin(classify, base, key, size, tree);
    FittedPasses(classify, base, tree);
    head := Fitted(classify, base, tree);
    FittedTracked(classify, base, paths, bytes);
  }

  lemma FittedTracked(classify: string -> Option<Bucket>, base: Revision, paths: seq<string>, bytes: nat)
    ensures Fitted(classify, base, Sized(paths, bytes)).files == paths == Sized(paths, bytes).files
  {
  }

  lemma {:induction false} SizedTree(classify: string -> Option<Bucket>, bucket: Bucket, paths: seq<string>, bytes: nat)
    requires forall i :: 0 <= i < |paths| ==> classify(paths[i]) == Some(bucket)
    ensures var tree := Sized(paths, bytes);
      && tree.files == paths && Unreadable(paths, classify, SizeOf(tree)) == []
      && forall k :: MetricsOf(classify, tree).At(k) == Times(|paths|, Share(Some(bucket), Some(bytes), k))
  {
    var tree := Sized(paths, bytes);
    hide Sum, Share, Times, Unreadable;
    assert forall i :: 0 <= i < |paths| ==> SizeOf(tree)(paths[i]) == Some(bytes);
    SizedSum(classify, bucket, paths, SizeOf(tree), bytes, TestFiles);
    forall k: Key
      ensures MetricsOf(classify, tree).At(k) == Times(|paths|, Share(Some(bucket), Some(bytes), k))
    {
      SizedSum(classify, bucket, paths, SizeOf(tree), bytes, k);
    }
  }

  // Files of one bucket touch no metric but their bytes and their counter.
  lemma OneBucketWithin(classify: string -> Option<Bucket>, base: Revision, key: Key, size: nat, tree: Revision)
    requires key != TestFiles && !Names(base, key)
    requires CounterOf(key).Some? ==> !Empty(classify, base, CounterOf(key).value)
    requires var n, bytes := if key.SupportFiles? then size else 1, if key.SupportFiles? then 0 else size;
      forall k :: MetricsOf(classify, tree).At(k) == Times(n, Share(Some(BucketOf(key)), Some(bytes), k))
    ensures MetricsOf(classify, tree).At(key) == size
    ensures forall k :: Names(base, k) ==>
      MetricsOf(classify, tree).At(k) <= Max(base.budget.value[k], MetricsOf(classify, base).At(k))
  {
    var measured := MetricsOf(classify, tree);
    TimesMeans(size, size);
    TimesMeans(1, 1);
    hide MetricsOf, Times;
    assert measured.At(key) == size;
    forall k | Names(base, k)
      ensures measured.At(k) <= Max(base.budget.value[k], MetricsOf(classify, base).At(k))
    {
      assert k != key;
      if CounterOf(key) == Some(k) {
        assert measured.At(k) == 1;
      } else {
        assert measured.At(k) == 0;
      }
    }
  }

  // Where no file is counted, there are no bytes to count.
  lemma {:induction false} NoFilesNoBytes(
    files: seq<string>, classify: string -> Option<Bucket>, sizeOf: string -> Option<nat>, key: Key)
    requires CounterOf(key).Some? && Sum(files, classify, sizeOf, CounterOf(key).value) == 0
    ensures Sum(files, classify, sizeOf, key) == 0
  {
    if files != [] {
      NoFilesNoBytes(files[..|files| - 1], classify, sizeOf, key);
    }
  }

  lemma BoundedMetric(classify: string -> Option<Bucket>, base: Revision, head: Revision, key: Key)
    requires Tracked(base.files) && Tracked(head.files) && Passes(classify, base, head)
    ensures Names(base, key) ==>
      MetricsOf(classify, head).At(key) <= Max(base.budget.value[key], MetricsOf(classify, base).At(key))
    ensures key == TestFiles ==> MetricsOf(classify, head).At(key) <= MetricsOf(classify, base).At(key) + MAX_NEW_TEST_FILES
    ensures CounterOf(key).Some? && Empty(classify, base, CounterOf(key).value) ==> MetricsOf(classify, head).At(key) == 0
  {
    hide Passes;
    PassingMergeAdds(classify, base, head);
    if Names(base, key) {
      PassingMerge(classify, base, head, key);
    }
    if CounterOf(key).Some? && Empty(classify, base, CounterOf(key).value) {
      var counter := CounterOf(key).value;
      PassingMerge(classify, base, head, counter);
      assert MetricsOf(classify, head).At(counter) == 0;
      NoFilesNoBytes(head.files, classify, SizeOf(head), key);
    }
  }

  // So one merge bounds a metric exactly if the base names it, or it is the number of test files, or
  // the base keeps its bucket empty.
  lemma BoundedExactly(classify: string -> Option<Bucket>, base: Revision, key: Key)
    requires Plentiful(classify) && Tracked(base.files) && Unreadable(base.files, classify, SizeOf(base)) == []
    ensures (exists n: nat :: Bounds(classify, base, key, n)) <==>
      || Names(base, key) || key == TestFiles
      || (CounterOf(key).Some? && Empty(classify, base, CounterOf(key).value))
  {
    hide Passes, MetricsOf, Plentiful, Empty, Tracked, Unreadable;
    if Names(base, key) || key == TestFiles || (CounterOf(key).Some? && Empty(classify, base, CounterOf(key).value)) {
      var n: nat :=
        if Names(base, key) then Max(base.budget.value[key], MetricsOf(classify, base).At(key))
        else if key == TestFiles then MetricsOf(classify, base).At(key) + MAX_NEW_TEST_FILES
        else 0;
      forall head: Revision | Tracked(head.files) && Passes(classify, base, head)
        ensures MetricsOf(classify, head).At(key) <= n
      {
        BoundedMetric(classify, base, head, key);
      }
      assert Bounds(classify, base, key, n);
    } else {
      forall n: nat
        ensures !Bounds(classify, base, key, n)
      {
        var head := UnnamedMetricUnbounded(classify, base, key, n + 1);
        assert MetricsOf(classify, head).At(key) > n;
      }
    }
  }
}
