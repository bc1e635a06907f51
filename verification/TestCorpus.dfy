// The test-corpus ratchet of scripts/ci/check-test-corpus-budget.ts: what it measures, what it
// finds wrong with one merge, and what that bounds over any sequence of merges.
module TestCorpus {
  import opened Options

  datatype Key = TestFiles | TestBytes | SupportFiles | SupportBytes | FixtureBytes

  const KEYS: seq<Key> := [TestFiles, TestBytes, SupportFiles, SupportBytes, FixtureBytes]

  // The bucket that a tracked path counts in.
  datatype Bucket = Test | Support | Fixture

  datatype Metrics = Metrics(testFiles: nat, testBytes: nat, supportFiles: nat, supportBytes: nat, fixtureBytes: nat) {
    function At(key: Key): nat {
      match key
      case TestFiles => testFiles
      case TestBytes => testBytes
      case SupportFiles => supportFiles
      case SupportBytes => supportBytes
      case FixtureBytes => fixtureBytes
    }
  }

  const MAX_NEW_TEST_FILES := 2
  const SLACK := Metrics(4, 65_536, 2, 65_536, 65_536)
  const NOTHING := Metrics(0, 0, 0, 0, 0)

  function Min(a: nat, b: nat): nat {
    if a < b then a else b
  }

  function Max(a: nat, b: nat): nat {
    if a > b then a else b
  }

  function Built(at: Key -> nat): (m: Metrics)
    ensures forall key :: m.At(key) == at(key)
  {
    Metrics(at(TestFiles), at(TestBytes), at(SupportFiles), at(SupportBytes), at(FixtureBytes))
  }

  // What a path adds to a metric when its size can be read.
  function Share(bucket: Option<Bucket>, size: Option<nat>, key: Key): nat {
    if bucket.None? || size.None? then 0
    else
      match (bucket.value, key)
      case (Test, TestFiles) => 1
      case (Test, TestBytes) => size.value
      case (Support, SupportFiles) => 1
      case (Support, SupportBytes) => size.value
      case (Fixture, FixtureBytes) => size.value
      case _ => 0
  }

  function Sum(files: seq<string>, classify: string -> Option<Bucket>, sizeOf: string -> Option<nat>, key: Key): nat {
    if files == [] then 0
    else
      var n := |files| - 1;
      Sum(files[..n], classify, sizeOf, key) + Share(classify(files[n]), sizeOf(files[n]), key)
  }

  function Unreadable(files: seq<string>, classify: string -> Option<Bucket>, sizeOf: string -> Option<nat>): seq<string> {
    if files == [] then []
    else
      var n := |files| - 1;
      Unreadable(files[..n], classify, sizeOf)
      + if classify(files[n]).Some? && sizeOf(files[n]).None? then [files[n]] else []
  }

  // `measureTestCorpus`: a file that cannot be sized is reported, and counts for nothing.
  method Measure(files: seq<string>, classify: string -> Option<Bucket>, sizeOf: string -> Option<nat>)
    returns (metrics: Metrics, unreadable: seq<string>)
    ensures forall key :: metrics.At(key) == Sum(files, classify, sizeOf, key)
    ensures unreadable == Unreadable(files, classify, sizeOf)
  {
    metrics, unreadable := NOTHING, [];
    for i := 0 to |files|
      invariant forall key :: metrics.At(key) == Sum(files[..i], classify, sizeOf, key)
      invariant unreadable == Unreadable(files[..i], classify, sizeOf)
    {
      assert files[..i + 1][..i] == files[..i];
      var bucket := classify(files[i]);
      if bucket.None? {
        continue;
      }
      var bytes := sizeOf(files[i]);
      if bytes.None? {
        unreadable := unreadable + [files[i]];
        continue;
      }
      match bucket.value
      case Test =>
        metrics := metrics.(testFiles := metrics.testFiles + 1, testBytes := metrics.testBytes + bytes.value);
      case Support =>
        metrics := metrics.(supportFiles := metrics.supportFiles + 1, supportBytes := metrics.supportBytes + bytes.value);
      case Fixture =>
        metrics := metrics.(fixtureBytes := metrics.fixtureBytes + bytes.value);
    }
    assert files[..|files|] == files;
  }

  // Ceilings committed on a base; an older base may not name every metric.
  type Frozen = map<Key, nat>

  datatype Finding = Deleted | Raise(key: Key, from: nat, to: nat) | Over(key: Key, current: nat, limit: nat) | NewFiles(net: int)

  // `resolveCeilings`: the checked-out file, else the base's, else the base's own measurement.
  function Resolved(checkedOut: Option<Metrics>, frozen: Option<Frozen>, base: Option<Metrics>, key: Key): Option<nat> {
    if checkedOut.Some? then Some(checkedOut.value.At(key))
    else if frozen.Some? && key in frozen.value then Some(frozen.value[key])
    else if base.Some? then Some(base.value.At(key))
    else None
  }

  predicate AllResolved(checkedOut: Option<Metrics>, frozen: Option<Frozen>, base: Option<Metrics>) {
    forall i :: 0 <= i < |KEYS| ==> Resolved(checkedOut, frozen, base, KEYS[i]).Some?
  }

  function ResolveCeilings(checkedOut: Option<Metrics>, frozen: Option<Frozen>, base: Option<Metrics>): (r: Option<Metrics>)
    ensures r.Some? <==> AllResolved(checkedOut, frozen, base)
    ensures r.Some? ==> forall key :: Some(r.value.At(key)) == Resolved(checkedOut, frozen, base, key)
  {
    if AllResolved(checkedOut, frozen, base) then
      assert KEYS[0] == TestFiles && KEYS[1] == TestBytes && KEYS[2] == SupportFiles;
      assert KEYS[3] == SupportBytes && KEYS[4] == FixtureBytes;
      Some(Metrics(
        Resolved(checkedOut, frozen, base, TestFiles).value,
        Resolved(checkedOut, frozen, base, TestBytes).value,
        Resolved(checkedOut, frozen, base, SupportFiles).value,
        Resolved(checkedOut, frozen, base, SupportBytes).value,
        Resolved(checkedOut, frozen, base, FixtureBytes).value))
    else
      None
  }

  // Ceilings are those checked out; without such a file each is the one committed on the base, or the
  // measure of the base where none is; and they resolve exactly if one of the three is there for each.
  lemma CeilingsMean(checkedOut: Option<Metrics>, frozen: Option<Frozen>, base: Option<Metrics>)
    ensures var r := ResolveCeilings(checkedOut, frozen, base);
      && (r.Some? <==> checkedOut.Some? || base.Some? || (frozen.Some? && forall key: Key :: key in frozen.value))
      && (checkedOut.Some? ==> r == checkedOut)
      && forall key: Key :: r.Some? && checkedOut.None? ==>
           if frozen.Some? && key in frozen.value then r.value.At(key) == frozen.value[key]
           else base.Some? && r.value.At(key) == base.value.At(key)
  {
    if frozen.Some? && AllResolved(checkedOut, frozen, base) && checkedOut.None? && base.None? {
      forall key: Key
        ensures key in frozen.value
      {
        KeysAreAll(key);
        var i :| 0 <= i < |KEYS| && KEYS[i] == key;
        assert Resolved(checkedOut, frozen, base, KEYS[i]).Some?;
      }
    }
    var r := ResolveCeilings(checkedOut, frozen, base);
    if checkedOut.Some? {
      assert forall key :: r.value.At(key) == checkedOut.value.At(key);
      SameMetrics(r.value, checkedOut.value);
    }
  }

  lemma SameMetrics(a: Metrics, b: Metrics)
    requires forall key :: a.At(key) == b.At(key)
    ensures a == b
  {
    assert a.At(TestFiles) == b.At(TestFiles) && a.At(TestBytes) == b.At(TestBytes) && a.At(SupportFiles) == b.At(SupportFiles);
    assert a.At(SupportBytes) == b.At(SupportBytes) && a.At(FixtureBytes) == b.At(FixtureBytes);
  }

  // One run of the check. `added` is absent where the cap on new files is not evaluated.
  datatype Run = Run(
    metrics: Metrics, budget: Metrics, added: Option<nat>, removed: nat, override: bool,
    baseMetrics: Option<Metrics>, baseBudget: Option<Frozen>, deleted: bool)

  function Limit(run: Run, key: Key): nat {
    if run.baseMetrics.None? then run.budget.At(key) else Max(run.budget.At(key), run.baseMetrics.value.At(key))
  }

  predicate Raises(run: Run, key: Key) {
    run.baseBudget.Some? && key in run.baseBudget.value && run.budget.At(key) > run.baseBudget.value[key]
  }

  predicate Exceeds(run: Run, key: Key) {
    run.metrics.At(key) > Limit(run, key)
  }

  predicate TooManyFiles(run: Run) {
    run.added.Some? && run.added.value - run.removed > MAX_NEW_TEST_FILES
  }

  // A finding is justified by the run.
  predicate Justified(run: Run, f: Finding) {
    match f
    case Deleted => run.deleted
    case Raise(key, from, to) => Raises(run, key) && from == run.baseBudget.value[key] && to == run.budget.At(key)
    case Over(key, current, limit) => Exceeds(run, key) && current == run.metrics.At(key) && limit == Limit(run, key)
    case NewFiles(net) => TooManyFiles(run) && net == run.added.value - run.removed
  }

  function RaiseFindings(run: Run, keys: seq<Key>): seq<Finding> {
    if keys == [] then []
    else
      var n := |keys| - 1;
      RaiseFindings(run, keys[..n])
      + if Raises(run, keys[n]) then [Raise(keys[n], run.baseBudget.value[keys[n]], run.budget.At(keys[n]))] else []
  }

  function OverFindings(run: Run, keys: seq<Key>): seq<Finding> {
    if keys == [] then []
    else
      var n := |keys| - 1;
      OverFindings(run, keys[..n])
      + if Exceeds(run, keys[n]) then [Over(keys[n], run.metrics.At(keys[n]), Limit(run, keys[n]))] else []
  }

  function Findings(run: Run): seq<Finding> {
    if run.override then []
    else
      (if run.deleted then [Deleted] else [])
      + RaiseFindings(run, KEYS)
      + OverFindings(run, KEYS)
      + (if TooManyFiles(run) then [NewFiles(run.added.value - run.removed)] else [])
  }

  method FindRaises(run: Run) returns (findings: seq<Finding>)
    ensures findings == RaiseFindings(run, KEYS)
  {
    findings := [];
    for i := 0 to |KEYS|
      invariant findings == RaiseFindings(run, KEYS[..i])
    {
      assert KEYS[..i + 1][..i] == KEYS[..i];
      var key := KEYS[i];
      if Raises(run, key) {
        findings := findings + [Raise(key, run.baseBudget.value[key], run.budget.At(key))];
      }
    }
    assert KEYS[..|KEYS|] == KEYS;
  }

  method FindOvers(run: Run) returns (findings: seq<Finding>)
    ensures findings == OverFindings(run, KEYS)
  {
    findings := [];
    for i := 0 to |KEYS|
      invariant findings == OverFindings(run, KEYS[..i])
    {
      assert KEYS[..i + 1][..i] == KEYS[..i];
      var key := KEYS[i];
      if Exceeds(run, key) {
        findings := findings + [Over(key, run.metrics.At(key), Limit(run, key))];
      }
    }
    assert KEYS[..|KEYS|] == KEYS;
  }

  // `evaluateTestCorpusBudget`, which lists its findings by kind.
  method Evaluate(run: Run) returns (findings: seq<Finding>)
    ensures findings == Findings(run)
  {
    if run.override {
      return [];
    }
    findings := if run.deleted then [Deleted] else [];
    var raises := FindRaises(run);
    var overs := FindOvers(run);
    findings := findings + raises + overs;
    if TooManyFiles(run) {
      findings := findings + [NewFiles(run.added.value - run.removed)];
    }
  }

  lemma KeysAreAll(key: Key)
    ensures key in KEYS
  {
    assert KEYS[0] == TestFiles && KEYS[1] == TestBytes && KEYS[2] == SupportFiles;
    assert KEYS[3] == SupportBytes && KEYS[4] == FixtureBytes;
  }

  lemma {:induction false} KeyedFindingsMean(run: Run, keys: seq<Key>)
    ensures forall f :: f in RaiseFindings(run, keys) <==> f.Raise? && f.key in keys && Justified(run, f)
    ensures forall f :: f in OverFindings(run, keys) <==> f.Over? && f.key in keys && Justified(run, f)
  {
    if keys != [] {
      var n := |keys| - 1;
      KeyedFindingsMean(run, keys[..n]);
      assert keys == keys[..n] + [keys[n]];
    }
  }

  // An override admits everything; otherwise every fault is found, and nothing else.
  lemma FindingsMean(run: Run)
    ensures forall f :: f in Findings(run) <==> !run.override && Justified(run, f)
  {
    KeyedFindingsMean(run, KEYS);
    forall key: Key
      ensures key in KEYS
    {
      KeysAreAll(key);
    }
  }

  // A run passes exactly when it is overridden, or deletes no budget, raises no committed ceiling,
  // keeps every metric within its limit and adds no more test files than the cap.
  lemma PassingMeans(run: Run)
    ensures Findings(run) == [] <==>
      || run.override
      || (!run.deleted && (forall key :: !Raises(run, key) && !Exceeds(run, key)) && !TooManyFiles(run))
  {
    FindingsMean(run);
    if Findings(run) != [] {
      var f := Findings(run)[0];
      assert f in Findings(run);
    }
    if !run.override {
      forall key
        ensures Raises(run, key) || Exceeds(run, key) ==> Findings(run) != []
      {
        if Raises(run, key) {
          assert Raise(key, run.baseBudget.value[key], run.budget.At(key)) in Findings(run);
        } else if Exceeds(run, key) {
          assert Over(key, run.metrics.At(key), Limit(run, key)) in Findings(run);
        }
      }
      if run.deleted {
        assert Deleted in Findings(run);
      }
      if TooManyFiles(run) {
        assert NewFiles(run.added.value - run.removed) in Findings(run);
      }
    }
  }

  // The same in numbers: every ceiling is at most the one committed on the base, every metric at most its
  // ceiling or its measure on the base, and there are at most two more test files.
  lemma PassesExactly(run: Run)
    ensures Findings(run) == [] <==>
      || run.override
      || (&& !run.deleted
          && (run.baseBudget.Some? ==> forall key :: key in run.baseBudget.value ==> run.budget.At(key) <= run.baseBudget.value[key])
          && (forall key ::
                || run.metrics.At(key) <= run.budget.At(key)
                || (run.baseMetrics.Some? && run.metrics.At(key) <= run.baseMetrics.value.At(key)))
          && (run.added.Some? ==> run.added.value - run.removed <= 2))
  {
    PassingMeans(run);
    forall key
      ensures Exceeds(run, key) <==>
        && run.metrics.At(key) > run.budget.At(key)
        && (run.baseMetrics.Some? ==> run.metrics.At(key) > run.baseMetrics.value.At(key))
    {
    }
    hide Findings, Exceeds;
  }
}
