// `evaluateCronConnectionBudget` of scripts/ci/check-cron-connection-budget.ts: it adds up the peaks
// of every trigger's chains from the declared budget entries and fails on any that may not fit.
module CronBudget {
  import opened Options
  import opened CronTrigger

  datatype Entry = Entry(job: string, maxConnections: int, scheduleKey: string)

  datatype Plan = Plan(scheduleKey: string, jobChains: seq<seq<string>>, budgetOnly: seq<string>)

  // The queue continuation: its own peak, the send after settlement, and the triggers that send.
  datatype Queue = Queue(maxConnections: int, send: int, producers: seq<string>)

  datatype Input = Input(
    failAt: int, fullAt: int, maxFetchCapable: int, maxFullTriggers: int,
    entries: seq<Entry>, scheduleKeys: seq<string>, plans: seq<Plan>, queue: Queue, catchUpKeys: seq<string>)

  datatype Finding = Resolved(entry: Entry) | Missing | Mismatched

  datatype Report = Report(
    totals: seq<int>, missing: seq<(string, string)>, mismatched: seq<(string, string)>, unplanned: seq<string>,
    full: seq<string>, fetchCapable: nat, failed: bool)

  // The entries of one job, in order.
  function EntriesOf(entries: seq<Entry>, job: string): seq<Entry> {
    if entries == [] then []
    else
      var n := |entries| - 1;
      EntriesOf(entries[..n], job) + if entries[n].job == job then [entries[n]] else []
  }

  // The first of them for a schedule.
  function FirstFor(entries: seq<Entry>, scheduleKey: string): Option<Entry> {
    if entries == [] then None
    else if entries[0].scheduleKey == scheduleKey then Some(entries[0])
    else FirstFor(entries[1..], scheduleKey)
  }

  function Resolve(entries: seq<Entry>, scheduleKey: string, job: string): Finding {
    var own := EntriesOf(entries, job);
    if own == [] then Missing
    else
      match FirstFor(own, scheduleKey)
      case Some(entry) => Resolved(entry)
      case None => Mismatched
  }

  function LimitOf(finding: Finding): Limit {
    if finding.Resolved? then Some(finding.entry.maxConnections) else None
  }

  function LimitsOf(entries: seq<Entry>, scheduleKey: string, jobs: seq<string>): (limits: seq<Limit>)
    ensures |limits| == |jobs|
  {
    seq(|jobs|, j requires 0 <= j < |jobs| => LimitOf(Resolve(entries, scheduleKey, jobs[j])))
  }

  function TriggerOf(input: Input, plan: Plan): Trigger {
    Trigger(
      seq(|plan.jobChains|, c requires 0 <= c < |plan.jobChains| =>
        LimitsOf(input.entries, plan.scheduleKey, plan.jobChains[c])),
      LimitsOf(input.entries, plan.scheduleKey, plan.budgetOnly),
      if plan.scheduleKey in input.queue.producers then input.queue.send else 0)
  }

  // The jobs that come out as `finding`, each with its schedule, in order.
  function Problems(entries: seq<Entry>, scheduleKey: string, jobs: seq<string>, finding: Finding): seq<(string, string)> {
    if jobs == [] then []
    else
      var n := |jobs| - 1;
      Problems(entries, scheduleKey, jobs[..n], finding)
      + if Resolve(entries, scheduleKey, jobs[n]) == finding then [(scheduleKey, jobs[n])] else []
  }

  function ChainProblems(
    entries: seq<Entry>, scheduleKey: string, chains: seq<seq<string>>, finding: Finding): seq<(string, string)>
  {
    if chains == [] then []
    else
      var n := |chains| - 1;
      ChainProblems(entries, scheduleKey, chains[..n], finding) + Problems(entries, scheduleKey, chains[n], finding)
  }

  function PlanProblems(entries: seq<Entry>, plan: Plan, finding: Finding): seq<(string, string)> {
    ChainProblems(entries, plan.scheduleKey, plan.jobChains, finding)
    + Problems(entries, plan.scheduleKey, plan.budgetOnly, finding)
  }

  function AllProblems(entries: seq<Entry>, plans: seq<Plan>, finding: Finding): seq<(string, string)> {
    if plans == [] then []
    else
      var n := |plans| - 1;
      AllProblems(entries, plans[..n], finding) + PlanProblems(entries, plans[n], finding)
  }

  // The triggers that fit but have no room for more.
  function FullTriggers(input: Input, plans: seq<Plan>): seq<string> {
    if plans == [] then []
    else
      var n := |plans| - 1;
      var total := Total(TriggerOf(input, plans[n]));
      FullTriggers(input, plans[..n])
      + if total < input.failAt && total >= input.fullAt then [plans[n].scheduleKey] else []
  }

  predicate Planned(plans: seq<Plan>, key: string) {
    exists p :: 0 <= p < |plans| && plans[p].scheduleKey == key
  }

  function Unplanned(keys: seq<string>, plans: seq<Plan>): seq<string> {
    if keys == [] then []
    else
      var n := |keys| - 1;
      Unplanned(keys[..n], plans) + if Planned(plans, keys[n]) then [] else [keys[n]]
  }

  function FetchCapable(entries: seq<Entry>): set<string> {
    set e | e in entries && e.maxConnections > 0 :: e.job
  }

  ghost predicate Overloaded(input: Input) {
    exists p :: 0 <= p < |input.plans| && Total(TriggerOf(input, input.plans[p])) >= input.failAt
  }

  // What each field of a report is; a failed report is one with any of seven faults.
  ghost predicate Reports(input: Input, r: Report) {
    && |r.totals| == |input.plans|
    && (forall p :: 0 <= p < |r.totals| ==> r.totals[p] == Total(TriggerOf(input, input.plans[p])))
    && r.missing == AllProblems(input.entries, input.plans, Missing)
    && r.mismatched == AllProblems(input.entries, input.plans, Mismatched)
    && r.unplanned == Unplanned(input.scheduleKeys, input.plans)
    && r.full == FullTriggers(input, input.plans)
    && r.fetchCapable == |FetchCapable(input.entries)|
    && (r.failed <==>
        || r.unplanned != [] || r.missing != [] || r.mismatched != []
        || Overloaded(input) || Max(input.queue.maxConnections, input.queue.send) >= input.failAt
        || r.fetchCapable > input.maxFetchCapable || |r.full| > input.maxFullTriggers)
  }

  lemma {:induction false} EntriesOfMeans(entries: seq<Entry>, job: string)
    ensures forall e :: e in EntriesOf(entries, job) <==> e in entries && e.job == job
  {
    if entries != [] {
      var n := |entries| - 1;
      EntriesOfMeans(entries[..n], job);
      assert entries == entries[..n] + [entries[n]];
    }
  }

  lemma {:induction false} FirstForMeans(entries: seq<Entry>, key: string)
    ensures match FirstFor(entries, key)
      case Some(e) => e in entries && e.scheduleKey == key
      case None => forall e :: e in entries ==> e.scheduleKey != key
    ensures forall i: nat :: IsFirst(entries, key, i) ==> FirstFor(entries, key) == Some(entries[i])
  {
    if entries != [] && entries[0].scheduleKey != key {
      FirstForMeans(entries[1..], key);
      assert entries == [entries[0]] + entries[1..];
      forall i: nat | IsFirst(entries, key, i)
        ensures FirstFor(entries, key) == Some(entries[i])
      {
        assert IsFirst(entries[1..], key, i - 1);
      }
    }
  }

  ghost predicate IsFirst(entries: seq<Entry>, key: string, i: nat) {
    i < |entries| && entries[i].scheduleKey == key && forall j :: 0 <= j < i ==> entries[j].scheduleKey != key
  }

  // A job is missing when nothing is declared for it, mismatched when something is but not for this
  // schedule, and otherwise resolved to an entry that names both.
  lemma ResolveMeans(entries: seq<Entry>, key: string, job: string)
    ensures Resolve(entries, key, job).Missing? <==> forall e :: e in entries ==> e.job != job
    ensures Resolve(entries, key, job).Resolved? <==> exists e :: e in entries && e.job == job && e.scheduleKey == key
    ensures Resolve(entries, key, job).Resolved? ==>
      var e := Resolve(entries, key, job).entry; e in entries && e.job == job && e.scheduleKey == key
  {
    var own := EntriesOf(entries, job);
    EntriesOfMeans(entries, job);
    FirstForMeans(own, key);
    if own != [] {
      assert own[0] in own;
    }
  }

  // `entriesByJob`: the same entries, grouped.
  ghost predicate Groups(byJob: map<string, seq<Entry>>, entries: seq<Entry>) {
    forall job :: Of(byJob, job) == EntriesOf(entries, job)
  }

  function Of(byJob: map<string, seq<Entry>>, job: string): seq<Entry> {
    if job in byJob then byJob[job] else []
  }

  method GroupByJob(entries: seq<Entry>) returns (byJob: map<string, seq<Entry>>)
    ensures Groups(byJob, entries)
  {
    byJob := map[];
    for i := 0 to |entries|
      invariant Groups(byJob, entries[..i])
    {
      var own := Of(byJob, entries[i].job);
      ghost var before := byJob;
      byJob := byJob[entries[i].job := own + [entries[i]]];
      forall job
        ensures Of(byJob, job) == EntriesOf(entries[..i + 1], job)
      {
        assert Of(before, job) == EntriesOf(entries[..i], job);
        assert entries[..i + 1][..i] == entries[..i];
      }
    }
    assert entries[..|entries|] == entries;
  }

  // `resolveEntry`: the matches of the job, then the first of the schedule.
  method ResolveEntry(ghost entries: seq<Entry>, byJob: map<string, seq<Entry>>, key: string, job: string)
    returns (finding: Finding)
    requires Groups(byJob, entries)
    ensures finding == Resolve(entries, key, job)
  {
    var matches := Of(byJob, job);
    if |matches| == 0 {
      return Missing;
    }
    var i := 0;
    while i < |matches|
      invariant 0 <= i <= |matches|
      invariant FirstFor(matches, key) == FirstFor(matches[i..], key)
    {
      assert matches[i..][1..] == matches[i + 1..];
      if matches[i].scheduleKey == key {
        return Resolved(matches[i]);
      }
      i := i + 1;
    }
    return Mismatched;
  }

  lemma PeakGrows(entries: seq<Entry>, key: string, jobs: seq<string>, j: nat)
    requires j < |jobs|
    ensures Peak(LimitsOf(entries, key, jobs[..j + 1])) ==
      match Resolve(entries, key, jobs[j])
      case Resolved(e) => Max(Peak(LimitsOf(entries, key, jobs[..j])), e.maxConnections)
      case _ => Peak(LimitsOf(entries, key, jobs[..j]))
  {
    var more := LimitsOf(entries, key, jobs[..j + 1]);
    assert more[..j] == LimitsOf(entries, key, jobs[..j]);
  }

  lemma {:induction false} ProblemsGrow(entries: seq<Entry>, key: string, jobs: seq<string>, j: nat, finding: Finding)
    requires j < |jobs|
    ensures Problems(entries, key, jobs[..j + 1], finding) ==
      Problems(entries, key, jobs[..j], finding) + if Resolve(entries, key, jobs[j]) == finding then [(key, jobs[j])] else []
  {
    assert jobs[..j + 1][..j] == jobs[..j];
  }

  // `evaluateChain`: the peak of what resolves, and the two kinds of job that do not.
  method EvaluateChain(ghost entries: seq<Entry>, byJob: map<string, seq<Entry>>, key: string, jobs: seq<string>)
    returns (peak: int, missing: seq<(string, string)>, mismatched: seq<(string, string)>)
    requires Groups(byJob, entries)
    ensures peak == Peak(LimitsOf(entries, key, jobs))
    ensures missing == Problems(entries, key, jobs, Missing)
    ensures mismatched == Problems(entries, key, jobs, Mismatched)
  {
    hide Groups, Resolve, LimitsOf, Problems, Peak;
    ChainOfNothing(entries, key);
    peak, missing, mismatched := 0, [], [];
    assert jobs[..0] == [];
    for j := 0 to |jobs|
      invariant peak == Peak(LimitsOf(entries, key, jobs[..j]))
      invariant missing == Problems(entries, key, jobs[..j], Missing)
      invariant mismatched == Problems(entries, key, jobs[..j], Mismatched)
    {
      var finding := ResolveEntry(entries, byJob, key, jobs[j]);
      PeakGrows(entries, key, jobs, j);
      ProblemsGrow(entries, key, jobs, j, Missing);
      ProblemsGrow(entries, key, jobs, j, Mismatched);
      match finding
      case Resolved(e) => peak := Max(peak, e.maxConnections);
      case Missing => missing := missing + [(key, jobs[j])];
      case Mismatched => mismatched := mismatched + [(key, jobs[j])];
    }
    assert jobs[..|jobs|] == jobs;
  }

  lemma {:induction false} ChainOfNothing(entries: seq<Entry>, key: string)
    ensures Peak(LimitsOf(entries, key, [])) == 0
    ensures forall finding :: Problems(entries, key, [], finding) == []
  {
  }

  function ChainLimits(entries: seq<Entry>, key: string, chains: seq<seq<string>>): seq<seq<Limit>> {
    seq(|chains|, c requires 0 <= c < |chains| => LimitsOf(entries, key, chains[c]))
  }

  lemma {:induction false} ChainsGrow(entries: seq<Entry>, key: string, chains: seq<seq<string>>, c: nat, finding: Finding)
    requires c < |chains|
    ensures Parallel(ChainLimits(entries, key, chains[..c + 1])) ==
      Parallel(ChainLimits(entries, key, chains[..c])) + Peak(LimitsOf(entries, key, chains[c]))
    ensures ChainProblems(entries, key, chains[..c + 1], finding) ==
      ChainProblems(entries, key, chains[..c], finding) + Problems(entries, key, chains[c], finding)
  {
    var more := ChainLimits(entries, key, chains[..c + 1]);
    assert more[..c] == ChainLimits(entries, key, chains[..c]);
    assert chains[..c + 1][..c] == chains[..c];
  }

  // One trigger: chains add up, budget-only work and the send stand beside them.
  method EvaluateTrigger(input: Input, byJob: map<string, seq<Entry>>, plan: Plan)
    returns (total: int, missing: seq<(string, string)>, mismatched: seq<(string, string)>)
    requires Groups(byJob, input.entries)
    ensures total == Total(TriggerOf(input, plan))
    ensures missing == PlanProblems(input.entries, plan, Missing)
    ensures mismatched == PlanProblems(input.entries, plan, Mismatched)
  {
    hide Groups, LimitsOf, Problems, Peak, Parallel, ChainLimits, ChainProblems;
    var parallel := 0;
    missing, mismatched := [], [];
    NoChains(input.entries, plan.scheduleKey, plan.jobChains);
    for c := 0 to |plan.jobChains|
      invariant parallel == Parallel(ChainLimits(input.entries, plan.scheduleKey, plan.jobChains[..c]))
      invariant missing == ChainProblems(input.entries, plan.scheduleKey, plan.jobChains[..c], Missing)
      invariant mismatched == ChainProblems(input.entries, plan.scheduleKey, plan.jobChains[..c], Mismatched)
    {
      var peak, none, stale := EvaluateChain(input.entries, byJob, plan.scheduleKey, plan.jobChains[c]);
      ChainsGrow(input.entries, plan.scheduleKey, plan.jobChains, c, Missing);
      ChainsGrow(input.entries, plan.scheduleKey, plan.jobChains, c, Mismatched);
      parallel, missing, mismatched := parallel + peak, missing + none, mismatched + stale;
    }
    assert plan.jobChains[..|plan.jobChains|] == plan.jobChains;
    var budgetOnly, none, stale := EvaluateChain(input.entries, byJob, plan.scheduleKey, plan.budgetOnly);
    missing, mismatched := missing + none, mismatched + stale;
    var send := if plan.scheduleKey in input.queue.producers then input.queue.send else 0;
    total := Max(Max(parallel, budgetOnly), send);
    TotalIs(input, plan);
  }

  lemma {:induction false} NoChains(entries: seq<Entry>, key: string, chains: seq<seq<string>>)
    ensures Parallel(ChainLimits(entries, key, chains[..0])) == 0
    ensures forall finding :: ChainProblems(entries, key, chains[..0], finding) == []
  {
  }

  lemma TotalIs(input: Input, plan: Plan)
    ensures Total(TriggerOf(input, plan)) ==
      Max(
        Max(
          Parallel(ChainLimits(input.entries, plan.scheduleKey, plan.jobChains)),
          Peak(LimitsOf(input.entries, plan.scheduleKey, plan.budgetOnly))),
        if plan.scheduleKey in input.queue.producers then input.queue.send else 0)
  {
    assert TriggerOf(input, plan).chains == ChainLimits(input.entries, plan.scheduleKey, plan.jobChains);
  }

  // All triggers seen so far.
  ghost predicate Evaluated(
    input: Input, p: nat, totals: seq<int>, missing: seq<(string, string)>, mismatched: seq<(string, string)>,
    full: seq<string>, over: bool)
    requires p <= |input.plans|
  {
    && |totals| == p
    && (forall k :: 0 <= k < p ==> totals[k] == Total(TriggerOf(input, input.plans[k])))
    && missing == AllProblems(input.entries, input.plans[..p], Missing)
    && mismatched == AllProblems(input.entries, input.plans[..p], Mismatched)
    && full == FullTriggers(input, input.plans[..p])
    && (over <==> exists k :: 0 <= k < p && totals[k] >= input.failAt)
  }

  lemma EvaluatedNext(
    input: Input, p: nat, totals: seq<int>, missing: seq<(string, string)>, mismatched: seq<(string, string)>,
    full: seq<string>, over: bool, total: int, none: seq<(string, string)>, stale: seq<(string, string)>)
    requires p < |input.plans| && Evaluated(input, p, totals, missing, mismatched, full, over)
    requires total == Total(TriggerOf(input, input.plans[p]))
    requires none == PlanProblems(input.entries, input.plans[p], Missing)
    requires stale == PlanProblems(input.entries, input.plans[p], Mismatched)
    ensures Evaluated(
      input, p + 1, totals + [total], missing + none, mismatched + stale,
      if total < input.failAt && total >= input.fullAt then full + [input.plans[p].scheduleKey] else full,
      over || total >= input.failAt)
  {
    hide Total, TriggerOf, PlanProblems;
    assert input.plans[..p + 1][..p] == input.plans[..p];
    var more := totals + [total];
    if over {
      var k :| 0 <= k < p && totals[k] >= input.failAt;
      assert more[k] >= input.failAt;
    }
    if total >= input.failAt {
      assert more[p] >= input.failAt;
    }
  }

  method EvaluateTriggers(input: Input, byJob: map<string, seq<Entry>>)
    returns (
      totals: seq<int>, missing: seq<(string, string)>, mismatched: seq<(string, string)>, full: seq<string>, over: bool)
    requires Groups(byJob, input.entries)
    ensures Evaluated(input, |input.plans|, totals, missing, mismatched, full, over)
  {
    totals, missing, mismatched, full, over := [], [], [], [], false;
    assert Evaluated(input, 0, totals, missing, mismatched, full, over);
    hide Groups, Evaluated, Total, TriggerOf, PlanProblems;
    for p := 0 to |input.plans|
      invariant Evaluated(input, p, totals, missing, mismatched, full, over)
    {
      var total, none, stale := EvaluateTrigger(input, byJob, input.plans[p]);
      EvaluatedNext(input, p, totals, missing, mismatched, full, over, total, none, stale);
      totals, missing, mismatched := totals + [total], missing + none, mismatched + stale;
      if total >= input.failAt {
        over := true;
      } else if total >= input.fullAt {
        full := full + [input.plans[p].scheduleKey];
      }
    }
  }

  method FindUnplanned(keys: seq<string>, plans: seq<Plan>) returns (unplanned: seq<string>)
    ensures unplanned == Unplanned(keys, plans)
  {
    unplanned := [];
    for i := 0 to |keys|
      invariant unplanned == Unplanned(keys[..i], plans)
    {
      assert keys[..i + 1][..i] == keys[..i];
      if !Planned(plans, keys[i]) {
        unplanned := unplanned + [keys[i]];
      }
    }
    assert keys[..|keys|] == keys;
  }

  method CountFetchCapable(entries: seq<Entry>) returns (count: nat)
    ensures count == |FetchCapable(entries)|
  {
    var jobs: set<string> := {};
    for i := 0 to |entries|
      invariant jobs == FetchCapable(entries[..i])
    {
      FetchCapableGrows(entries, i);
      if entries[i].maxConnections > 0 {
        jobs := jobs + {entries[i].job};
      }
    }
    assert entries[..|entries|] == entries;
    return |jobs|;
  }

  lemma FetchCapableGrows(entries: seq<Entry>, i: nat)
    requires i < |entries|
    ensures FetchCapable(entries[..i + 1]) ==
      FetchCapable(entries[..i]) + if entries[i].maxConnections > 0 then {entries[i].job} else {}
  {
    assert entries[..i + 1] == entries[..i] + [entries[i]];
  }

  // The first plan of a schedule, or the number of plans.
  function LaneOf(plans: seq<Plan>, key: string): (p: nat)
    ensures p <= |plans| && (p < |plans| ==> plans[p].scheduleKey == key)
  {
    if plans == [] || plans[0].scheduleKey == key then 0 else 1 + LaneOf(plans[1..], key)
  }

  predicate LaneOver(input: Input, totals: seq<int>, key: string)
    requires |totals| == |input.plans|
  {
    var p := LaneOf(input.plans, key);
    p < |totals| && totals[p] >= input.failAt
  }

  method FindLane(plans: seq<Plan>, key: string) returns (p: nat)
    ensures p == LaneOf(plans, key)
  {
    p := 0;
    while p < |plans| && plans[p].scheduleKey != key
      invariant p <= |plans|
      invariant LaneOf(plans, key) == p + LaneOf(plans[p..], key)
    {
      assert plans[p..][1..] == plans[p + 1..];
      p := p + 1;
    }
  }

  // A slot catch-up runs as a surface of its own with the total of its trigger; one without a
  // trigger is no surface.
  method CatchUpExceeds(input: Input, totals: seq<int>) returns (exceeds: bool)
    requires |totals| == |input.plans|
    ensures exceeds <==> exists c :: 0 <= c < |input.catchUpKeys| && LaneOver(input, totals, input.catchUpKeys[c])
  {
    exceeds := false;
    for c := 0 to |input.catchUpKeys|
      invariant exceeds <==> exists d :: 0 <= d < c && LaneOver(input, totals, input.catchUpKeys[d])
    {
      var p := FindLane(input.plans, input.catchUpKeys[c]);
      if p < |totals| && totals[p] >= input.failAt {
        exceeds := true;
      }
    }
  }

  // No surface of its own exceeds what a trigger does not already.
  lemma CatchUpIsCovered(input: Input, totals: seq<int>)
    requires |totals| == |input.plans|
    ensures (exists c :: 0 <= c < |input.catchUpKeys| && LaneOver(input, totals, input.catchUpKeys[c])) ==>
      exists p :: 0 <= p < |totals| && totals[p] >= input.failAt
  {
  }

  method Evaluate(input: Input) returns (r: Report)
    ensures Reports(input, r)
  {
    var byJob := GroupByJob(input.entries);
    var unplanned := FindUnplanned(input.scheduleKeys, input.plans);
    var failed := |unplanned| > 0;
    var totals, missing, mismatched, full, over := EvaluateTriggers(input, byJob);
    assert input.plans[..|input.plans|] == input.plans;
    var fetchCapable := CountFetchCapable(input.entries);
    var surface := Max(input.queue.maxConnections, input.queue.send);
    var catchUp := CatchUpExceeds(input, totals);
    CatchUpIsCovered(input, totals);
    failed := failed || over || surface >= input.failAt || catchUp;
    r := Report(
      totals, missing, mismatched, unplanned, full, fetchCapable,
      failed || |missing| > 0 || |mismatched| > 0 || fetchCapable > input.maxFetchCapable || |full| > input.maxFullTriggers);
    hide Total, TriggerOf, AllProblems, Unplanned, FullTriggers, FetchCapable, Groups;
  }

  lemma KnownLast(limits: seq<Limit>, n: nat)
    requires |limits| == n + 1
    ensures AllKnown(limits) <==> AllKnown(limits[..n]) && limits[n].Some?
  {
    assert forall j :: 0 <= j < n ==> limits[..n][j] == limits[j];
  }

  // A trigger's jobs are all known exactly when none of them is reported.
  lemma {:induction false} ProblemsMean(entries: seq<Entry>, key: string, jobs: seq<string>)
    ensures AllKnown(LimitsOf(entries, key, jobs)) <==>
      Problems(entries, key, jobs, Missing) == [] && Problems(entries, key, jobs, Mismatched) == []
  {
    if jobs != [] {
      var n := |jobs| - 1;
      ProblemsMean(entries, key, jobs[..n]);
      var limits := LimitsOf(entries, key, jobs);
      assert limits[..n] == LimitsOf(entries, key, jobs[..n]);
      assert limits[n] == LimitOf(Resolve(entries, key, jobs[n]));
      hide Resolve, LimitsOf;
      KnownLast(limits, n);
    }
  }

  lemma {:induction false} ChainProblemsMean(entries: seq<Entry>, key: string, chains: seq<seq<string>>)
    ensures (forall c :: 0 <= c < |chains| ==> AllKnown(LimitsOf(entries, key, chains[c]))) <==>
      ChainProblems(entries, key, chains, Missing) == [] && ChainProblems(entries, key, chains, Mismatched) == []
  {
    hide AllKnown, LimitsOf, Problems;
    if chains != [] {
      var n := |chains| - 1;
      ChainProblemsMean(entries, key, chains[..n]);
      ProblemsMean(entries, key, chains[n]);
      assert forall c :: 0 <= c < n ==> chains[..n][c] == chains[c];
    }
  }

  lemma PlanProblemsMean(input: Input, plan: Plan)
    ensures Known(TriggerOf(input, plan)) <==>
      PlanProblems(input.entries, plan, Missing) == [] && PlanProblems(input.entries, plan, Mismatched) == []
  {
    hide AllKnown, LimitsOf, Problems, ChainProblems;
    var t, n := TriggerOf(input, plan), |plan.jobChains|;
    ChainProblemsMean(input.entries, plan.scheduleKey, plan.jobChains);
    ProblemsMean(input.entries, plan.scheduleKey, plan.budgetOnly);
    SendKnown(t.send);
    assert forall c :: 0 <= c < n ==> Lanes(t)[c] == LimitsOf(input.entries, plan.scheduleKey, plan.jobChains[c]);
    assert Lanes(t)[n] == LimitsOf(input.entries, plan.scheduleKey, plan.budgetOnly);
    assert Lanes(t)[n + 1] == [Some(t.send)];
  }

  lemma SendKnown(send: int)
    ensures AllKnown([Some(send)])
  {
  }

  lemma {:induction false} AllProblemsMean(entries: seq<Entry>, plans: seq<Plan>, finding: Finding)
    ensures AllProblems(entries, plans, finding) == [] <==>
      forall p :: 0 <= p < |plans| ==> PlanProblems(entries, plans[p], finding) == []
  {
    hide PlanProblems;
    if plans != [] {
      var n := |plans| - 1;
      AllProblemsMean(entries, plans[..n], finding);
      assert forall p :: 0 <= p < n ==> plans[..n][p] == plans[p];
    }
  }

  // No moment of any run of the trigger holds `failAt` connections.
  ghost predicate Safe(input: Input, plan: Plan) {
    forall s :: Reachable(TriggerOf(input, plan), s) ==> Held(s) < input.failAt
  }

  // What passing the check is worth: every run of every trigger is safe. And nothing less would do:
  // a trigger with an unsafe run fails the check.
  lemma PassedIsSafe(input: Input, r: Report)
    requires Reports(input, r)
    ensures !r.failed ==> forall p :: 0 <= p < |input.plans| ==> Safe(input, input.plans[p])
    ensures (r.missing == [] && r.mismatched == [] && !Overloaded(input)) <==>
      forall p :: 0 <= p < |input.plans| ==> Safe(input, input.plans[p])
  {
    hide Reachable, Held, Known, Total, TriggerOf, AllProblems, PlanProblems;
    AllProblemsMean(input.entries, input.plans, Missing);
    AllProblemsMean(input.entries, input.plans, Mismatched);
    forall p | 0 <= p < |input.plans|
      ensures Safe(input, input.plans[p]) <==>
        && PlanProblems(input.entries, input.plans[p], Missing) == []
        && PlanProblems(input.entries, input.plans[p], Mismatched) == []
        && Total(TriggerOf(input, input.plans[p])) < input.failAt
    {
      FitsExactly(TriggerOf(input, input.plans[p]), input.failAt);
      PlanProblemsMean(input, input.plans[p]);
    }
  }

  // ------------------------------------------------------------- what is listed

  // A job of a trigger, in one of its chains or among its budget-only work.
  ghost predicate Runs(plan: Plan, job: string) {
    job in plan.budgetOnly || exists chain :: chain in plan.jobChains && job in chain
  }

  ghost predicate Declared(input: Input, job: string) {
    exists e :: e in input.entries && e.job == job
  }

  ghost predicate DeclaredFor(input: Input, key: string, job: string) {
    exists e :: e in input.entries && e.job == job && e.scheduleKey == key
  }

  ghost predicate RunsUnder(input: Input, key: string, job: string) {
    exists plan :: plan in input.plans && plan.scheduleKey == key && Runs(plan, job)
  }

  lemma {:induction false} ProblemsAre(entries: seq<Entry>, key: string, jobs: seq<string>, finding: Finding)
    ensures forall k, job :: (k, job) in Problems(entries, key, jobs, finding) <==>
      k == key && job in jobs && Resolve(entries, key, job) == finding
  {
    hide Resolve;
    if jobs != [] {
      var n := |jobs| - 1;
      ProblemsAre(entries, key, jobs[..n], finding);
      assert jobs == jobs[..n] + [jobs[n]];
    }
  }

  lemma {:induction false} ChainProblemsAre(entries: seq<Entry>, key: string, chains: seq<seq<string>>, finding: Finding)
    ensures forall k, job :: (k, job) in ChainProblems(entries, key, chains, finding) <==>
      k == key && (exists chain :: chain in chains && job in chain) && Resolve(entries, key, job) == finding
  {
    hide Resolve, Problems;
    if chains != [] {
      var n := |chains| - 1;
      ChainProblemsAre(entries, key, chains[..n], finding);
      ProblemsAre(entries, key, chains[n], finding);
      assert chains == chains[..n] + [chains[n]];
    }
  }

  lemma {:induction false} AllProblemsAre(entries: seq<Entry>, plans: seq<Plan>, finding: Finding)
    ensures forall k, job :: (k, job) in AllProblems(entries, plans, finding) <==>
      Resolve(entries, k, job) == finding && exists plan :: plan in plans && plan.scheduleKey == k && Runs(plan, job)
  {
    hide Resolve, Problems, ChainProblems, Runs;
    if plans != [] {
      var n := |plans| - 1;
      AllProblemsAre(entries, plans[..n], finding);
      PlanProblemsAre(entries, plans[n], finding);
      assert plans == plans[..n] + [plans[n]];
      hide PlanProblems;
    }
  }

  lemma PlanProblemsAre(entries: seq<Entry>, plan: Plan, finding: Finding)
    ensures forall k, job :: (k, job) in PlanProblems(entries, plan, finding) <==>
      k == plan.scheduleKey && Runs(plan, job) && Resolve(entries, k, job) == finding
  {
    ChainProblemsAre(entries, plan.scheduleKey, plan.jobChains, finding);
    ProblemsAre(entries, plan.scheduleKey, plan.budgetOnly, finding);
    hide Resolve, Problems, ChainProblems;
  }

  lemma {:induction false} UnplannedAre(keys: seq<string>, plans: seq<Plan>)
    ensures forall key :: key in Unplanned(keys, plans) <==> key in keys && forall plan :: plan in plans ==> plan.scheduleKey != key
  {
    if keys != [] {
      var n := |keys| - 1;
      UnplannedAre(keys[..n], plans);
      assert keys == keys[..n] + [keys[n]];
      PlannedExactly(plans, keys[n]);
      hide Planned;
    }
  }

  lemma PlannedExactly(plans: seq<Plan>, key: string)
    ensures Planned(plans, key) <==> exists plan :: plan in plans && plan.scheduleKey == key
  {
  }

  lemma {:induction false} FullAre(input: Input, plans: seq<Plan>)
    ensures forall key :: key in FullTriggers(input, plans) <==>
      exists plan :: plan in plans && plan.scheduleKey == key && input.fullAt <= Total(TriggerOf(input, plan)) < input.failAt
  {
    hide Total, TriggerOf;
    if plans != [] {
      var n := |plans| - 1;
      FullAre(input, plans[..n]);
      assert plans == plans[..n] + [plans[n]];
    }
  }

  // A report lists as missing exactly the jobs that run undeclared, as mismatched those declared for
  // other schedules only, as unplanned the schedules that no plan has, and as full the triggers whose
  // total is at the one bound and below the other.
  lemma ReportMeans(input: Input, r: Report, key: string, job: string)
    requires Reports(input, r)
    ensures (key, job) in r.missing <==> RunsUnder(input, key, job) && !Declared(input, job)
    ensures (key, job) in r.mismatched <==>
      RunsUnder(input, key, job) && Declared(input, job) && !DeclaredFor(input, key, job)
    ensures key in r.unplanned <==> key in input.scheduleKeys && forall plan :: plan in input.plans ==> plan.scheduleKey != key
    ensures key in r.full <==>
      exists plan ::
        plan in input.plans && plan.scheduleKey == key && input.fullAt <= Total(TriggerOf(input, plan)) < input.failAt
  {
    AllProblemsAre(input.entries, input.plans, Missing);
    AllProblemsAre(input.entries, input.plans, Mismatched);
    UnplannedAre(input.scheduleKeys, input.plans);
    FullAre(input, input.plans);
    ResolveMeans(input.entries, key, job);
    hide Resolve, AllProblems, Unplanned, FullTriggers, Total, TriggerOf, Runs, FetchCapable;
  }
}
