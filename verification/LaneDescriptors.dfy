// `deriveLaneEmitterDescriptors` of
// scripts/build-data/generate-safety-score-v9-lane-emitter-descriptors.ts: control records grouped
// into lanes by their normalised route, each lane with a descriptor or with the reason for none.
module LaneDescriptors {
  import opened Options
  import opened SortedText
  import opened DeploymentIds
  import opened LaneAdmission

  // Of a record only a bridge control's routes matter, and who it belongs to.
  datatype Record = Record(isBridge: bool, assetId: string, controlId: string, routeRefs: seq<string>)

  datatype Entry = Entry(key: string, chain: string, contributor: Contributor)

  datatype RefKind = NonEvm(laneKey: string) | Malformed | Route(entry: Entry)

  function KindOf(registry: Registry, record: Record, ref: string): RefKind {
    var key := Normalize(registry, ref);
    if !IsEvm(registry, ref) then NonEvm(if key == "" then ref else key)
    else if key == "" then Malformed
    else Route(Entry(key, ChainOf(registry, ref), Contributor(record.assetId, record.controlId)))
  }

  function KindsOfRefs(registry: Registry, record: Record, refs: seq<string>): (kinds: seq<RefKind>)
    ensures |kinds| == |refs|
  {
    seq(|refs|, i requires 0 <= i < |refs| => KindOf(registry, record, refs[i]))
  }

  // Every route reference of every bridge control, in order.
  function Kinds(registry: Registry, records: seq<Record>): seq<RefKind> {
    if records == [] then []
    else
      var n := |records| - 1;
      Kinds(registry, records[..n])
      + if records[n].isBridge then KindsOfRefs(registry, records[n], records[n].routeRefs) else []
  }

  function Entries(kinds: seq<RefKind>): seq<Entry> {
    if kinds == [] then []
    else
      var n := |kinds| - 1;
      Entries(kinds[..n]) + if kinds[n].Route? then [kinds[n].entry] else []
  }

  function NonEvmKeys(kinds: seq<RefKind>): set<string> {
    set i | 0 <= i < |kinds| && kinds[i].NonEvm? :: kinds[i].laneKey
  }

  function CountMalformed(kinds: seq<RefKind>): nat {
    if kinds == [] then 0
    else CountMalformed(kinds[..|kinds| - 1]) + if kinds[|kinds| - 1].Malformed? then 1 else 0
  }

  function CountNonEvm(kinds: seq<RefKind>): nat {
    if kinds == [] then 0
    else CountNonEvm(kinds[..|kinds| - 1]) + if kinds[|kinds| - 1].NonEvm? then 1 else 0
  }

  type Lanes = map<string, Lane>

  // `lanes.get(key) ?? …` and the push: the first entry of a key fixes the lane's chain.
  function AddEntry(lanes: Lanes, e: Entry): Lanes {
    var lane := if e.key in lanes then lanes[e.key] else Lane(e.key, e.chain, []);
    lanes[e.key := lane.(contributors := lane.contributors + [e.contributor])]
  }

  function LanesOf(entries: seq<Entry>): Lanes {
    if entries == [] then map[] else AddEntry(LanesOf(entries[..|entries| - 1]), entries[|entries| - 1])
  }

  // The last inventory record of a subject.
  function RecordOf(inventory: seq<Inventory>, subject: string): Option<Inventory> {
    if inventory == [] then None
    else
      var n := |inventory| - 1;
      if inventory[n].subject == subject then Some(inventory[n]) else RecordOf(inventory[..n], subject)
  }

  function Subjects(inventory: seq<Inventory>): set<string> {
    set i | 0 <= i < |inventory| :: inventory[i].subject
  }

  // What becomes of one lane.
  datatype Listed = Listed(
    subject: string, reason: Reason, assetIds: seq<string>, controlIds: seq<string>, unpinned: seq<string>, uncovered: seq<string>)

  datatype Verdict = Covered(descriptor: Descriptor, uncovered: seq<string>) | NotCovered(listed: Listed)

  function OutcomeOf(
    env: Env, inventory: seq<Inventory>, lookbacks: map<string, nat>, key: string, chain: string, assetIds: seq<string>,
    controlIds: seq<string>): Verdict
  {
    match RecordOf(inventory, key)
    case None => NotCovered(Listed(key, NoReviewedInventory, assetIds, controlIds, [], []))
    case Some(record) =>
      var a := AdmissionOf(env, key, chain, assetIds, controlIds, record, lookbacks);
      if a.descriptor.Some? then Covered(a.descriptor.value, a.uncovered)
      else
        NotCovered(Listed(
          key, if a.reason.Some? then a.reason.value else InvalidInventoryLane, assetIds, controlIds, a.unpinned, a.uncovered))
  }

  function LaneOutcome(env: Env, inventory: seq<Inventory>, lookbacks: map<string, nat>, lane: Lane): Verdict {
    OutcomeOf(
      env, inventory, lookbacks, lane.subject, lane.chain, SortedValues(AssetIds(lane.contributors)),
      SortedValues(ControlIds(lane.contributors)))
  }

  function Descriptors(outcomes: seq<Verdict>): seq<Descriptor> {
    if outcomes == [] then []
    else
      var n := |outcomes| - 1;
      Descriptors(outcomes[..n]) + if outcomes[n].Covered? then [outcomes[n].descriptor] else []
  }

  function NotReviewed(outcomes: seq<Verdict>): seq<Listed> {
    if outcomes == [] then []
    else
      var n := |outcomes| - 1;
      NotReviewed(outcomes[..n]) + if outcomes[n].NotCovered? then [outcomes[n].listed] else []
  }

  function CountReason(listed: seq<Listed>, r: Reason): nat {
    if listed == [] then 0
    else CountReason(listed[..|listed| - 1], r) + if listed[|listed| - 1].reason == r then 1 else 0
  }

  datatype Input = Input(records: seq<Record>, inventory: seq<Inventory>, lookbacks: map<string, nat>)

  datatype Artifact = Artifact(
    lanes: nat, descriptors: seq<Descriptor>, notReviewed: seq<Listed>, byReason: map<Reason, nat>,
    routeRefs: nat, nonEvm: nat, malformed: nat, lanesNonEvm: nat)

  function Tally(byReason: map<Reason, nat>, r: Reason): nat {
    if r in byReason then byReason[r] else 0
  }

  function Unmatched(inventory: seq<Inventory>, lanes: Lanes): set<string> {
    Subjects(inventory) - lanes.Keys
  }

  // The lanes in the order of their keys.
  ghost predicate KeysOf(keys: seq<string>, lanes: Lanes) {
    Increasing(keys) && forall k :: k in keys <==> k in lanes
  }

  function Outcomes(env: Env, input: Input, lanes: Lanes, keys: seq<string>): (outcomes: seq<Verdict>)
    requires forall k :: k in keys ==> k in lanes
    ensures |outcomes| == |keys|
  {
    seq(|keys|, i requires 0 <= i < |keys| => LaneOutcome(env, input.inventory, input.lookbacks, lanes[keys[i]]))
  }

  ghost predicate Derived(env: Env, registry: Registry, input: Input, keys: seq<string>, a: Artifact) {
    var kinds := Kinds(registry, input.records);
    var lanes := LanesOf(Entries(kinds));
    && KeysOf(keys, lanes)
    && var outcomes := Outcomes(env, input, lanes, keys);
    && a.lanes == |lanes|
    && a.descriptors == Descriptors(outcomes)
    && a.notReviewed == NotReviewed(outcomes)
    && (forall r :: Tally(a.byReason, r) ==
          CountReason(a.notReviewed, r) + if r.InvalidInventoryLane? then |Unmatched(input.inventory, lanes)| else 0)
    && a.routeRefs == |kinds| && a.nonEvm == CountNonEvm(kinds) && a.malformed == CountMalformed(kinds)
    && a.lanesNonEvm == |NonEvmKeys(kinds)|
  }

  // The first loop: all references, sorted into the lanes and the counts.
  datatype Tallies = Tallies(lanes: Lanes, routeRefs: nat, nonEvm: nat, malformed: nat, nonEvmKeys: set<string>)

  ghost predicate Counted(t: Tallies, kinds: seq<RefKind>) {
    && t.lanes == LanesOf(Entries(kinds)) && t.routeRefs == |kinds|
    && t.nonEvm == CountNonEvm(kinds) && t.malformed == CountMalformed(kinds) && t.nonEvmKeys == NonEvmKeys(kinds)
  }

  function Counting(t: Tallies, kind: RefKind): Tallies {
    var more := t.(routeRefs := t.routeRefs + 1);
    match kind
    case NonEvm(key) => more.(nonEvm := t.nonEvm + 1, nonEvmKeys := t.nonEvmKeys + {key})
    case Malformed => more.(malformed := t.malformed + 1)
    case Route(e) => more.(lanes := AddEntry(t.lanes, e))
  }

  lemma {:induction false} EntriesMore(kinds: seq<RefKind>, kind: RefKind)
    ensures Entries(kinds + [kind]) == Entries(kinds) + if kind.Route? then [kind.entry] else []
    ensures CountNonEvm(kinds + [kind]) == CountNonEvm(kinds) + if kind.NonEvm? then 1 else 0
    ensures CountMalformed(kinds + [kind]) == CountMalformed(kinds) + if kind.Malformed? then 1 else 0
  {
    assert (kinds + [kind])[..|kinds|] == kinds;
  }

  lemma {:induction false} LanesMore(entries: seq<Entry>, e: Entry)
    ensures LanesOf(entries + [e]) == AddEntry(LanesOf(entries), e)
    ensures entries + [] == entries
  {
    assert (entries + [e])[..|entries|] == entries;
  }

  lemma CountedMore(t: Tallies, kinds: seq<RefKind>, kind: RefKind)
    requires Counted(t, kinds)
    ensures Counted(Counting(t, kind), kinds + [kind])
  {
    hide AddEntry, Entries, CountNonEvm, CountMalformed, NonEvmKeys, LanesOf;
    EntriesMore(kinds, kind);
    NonEvmKeysMore(kinds, kind);
    if kind.Route? {
      LanesMore(Entries(kinds), kind.entry);
    } else {
      assert Entries(kinds) + [] == Entries(kinds);
    }
  }

  lemma NonEvmKeysMore(kinds: seq<RefKind>, kind: RefKind)
    ensures NonEvmKeys(kinds + [kind]) == NonEvmKeys(kinds) + if kind.NonEvm? then {kind.laneKey} else {}
  {
    var more := kinds + [kind];
    forall k | k in NonEvmKeys(kinds)
      ensures k in NonEvmKeys(more)
    {
      var i :| 0 <= i < |kinds| && kinds[i].NonEvm? && kinds[i].laneKey == k;
      assert more[i].NonEvm? && more[i].laneKey == k;
    }
    if kind.NonEvm? {
      assert more[|kinds|].laneKey == kind.laneKey;
    }
  }

  lemma Regroup(a: seq<RefKind>, b: seq<RefKind>, c: seq<RefKind>)
    ensures a + (b + c) == a + b + c && a + [] == a
  {
  }

  method CountRefs(registry: Registry, record: Record, refs: seq<string>, before: Tallies, ghost kinds: seq<RefKind>)
    returns (t: Tallies)
    requires Counted(before, kinds)
    ensures Counted(t, kinds + KindsOfRefs(registry, record, refs))
  {
    hide Counted, Counting, KindOf;
    t := before;
    ghost var none := KindsOfRefs(registry, record, refs[..0]);
    assert none == [];
    Regroup(kinds, none, none);
    for i := 0 to |refs|
      invariant Counted(t, kinds + KindsOfRefs(registry, record, refs[..i]))
    {
      ghost var done := KindsOfRefs(registry, record, refs[..i]);
      var kind := KindOf(registry, record, refs[i]);
      CountedMore(t, kinds + done, kind);
      Regroup(kinds, done, [kind]);
      assert KindsOfRefs(registry, record, refs[..i + 1]) == done + [kind];
      t := Counting(t, kind);
    }
    assert refs[..|refs|] == refs;
  }

  method CountRecords(registry: Registry, records: seq<Record>) returns (t: Tallies)
    ensures Counted(t, Kinds(registry, records))
  {
    t := Tallies(map[], 0, 0, 0, {});
    assert Counted(t, Kinds(registry, records[..0]));
    hide Counted, KindsOfRefs;
    for i := 0 to |records|
      invariant Counted(t, Kinds(registry, records[..i]))
    {
      assert records[..i + 1][..i] == records[..i];
      ghost var done := Kinds(registry, records[..i]);
      if records[i].isBridge {
        t := CountRefs(registry, records[i], records[i].routeRefs, t, done);
      } else {
        Regroup(done, done, done);
      }
    }
    assert records[..|records|] == records;
  }

  lemma {:induction false} DescriptorsMore(outcomes: seq<Verdict>, o: Verdict)
    ensures Descriptors(outcomes + [o]) == Descriptors(outcomes) + if o.Covered? then [o.descriptor] else []
    ensures NotReviewed(outcomes + [o]) == NotReviewed(outcomes) + if o.NotCovered? then [o.listed] else []
  {
    assert (outcomes + [o])[..|outcomes|] == outcomes;
  }

  lemma {:induction false} CountReasonMore(listed: seq<Listed>, l: Listed, r: Reason)
    ensures CountReason(listed + [l], r) == CountReason(listed, r) + if l.reason == r then 1 else 0
  {
    assert (listed + [l])[..|listed|] == listed;
  }

  ghost predicate Invalid(byReason: map<Reason, nat>, n: nat) {
    forall r :: Tally(byReason, r) == if r.InvalidInventoryLane? then n else 0
  }

  lemma NoneInvalid(keys: set<string>)
    ensures Invalid(map[], |{} - keys|)
  {
    assert {} - keys == {};
  }

  lemma OneInvalid(byReason: map<Reason, nat>, counted: set<string>, keys: set<string>, subject: string)
    requires Invalid(byReason, |counted - keys|) && subject !in counted && subject !in keys
    ensures Invalid(
      byReason[InvalidInventoryLane := Tally(byReason, InvalidInventoryLane) + 1], |(counted + {subject}) - keys|)
  {
    assert (counted + {subject}) - keys == (counted - keys) + {subject};
  }

  lemma OneLane(counted: set<string>, keys: set<string>, subject: string)
    requires subject in keys
    ensures (counted + {subject}) - keys == counted - keys
  {
  }

  // What is counted and what is still to count.
  ghost predicate Parted(all: set<string>, counted: set<string>, rest: set<string>) {
    counted == all - rest && rest <= all
  }

  lemma MoveOver(all: set<string>, counted: set<string>, rest: set<string>, subject: string)
    requires Parted(all, counted, rest) && subject in rest
    ensures subject !in counted && Parted(all, counted + {subject}, rest - {subject}) && |rest - {subject}| < |rest|
  {
  }

  // The subjects of the inventory that are no lane, each counted once.
  method CountUnmatched(inventory: seq<Inventory>, lanes: Lanes) returns (byReason: map<Reason, nat>)
    ensures Invalid(byReason, |Unmatched(inventory, lanes)|)
  {
    byReason := map[];
    var rest := Subjects(inventory);
    ghost var all, counted := rest, {};
    NoneInvalid(lanes.Keys);
    assert Parted(all, counted, rest);
    hide *;
    while rest != {}
      invariant Parted(all, counted, rest)
      invariant Invalid(byReason, |counted - lanes.Keys|)
      decreases |rest|
    {
      var subject :| subject in rest;
      MoveOver(all, counted, rest, subject);
      if subject in lanes.Keys {
        OneLane(counted, lanes.Keys, subject);
      } else {
        OneInvalid(byReason, counted, lanes.Keys, subject);
        byReason := byReason[InvalidInventoryLane := Tally(byReason, InvalidInventoryLane) + 1];
      }
      rest, counted := rest - {subject}, counted + {subject};
    }
    AllCounted(inventory, lanes, counted, rest);
  }

  lemma AllCounted(inventory: seq<Inventory>, lanes: Lanes, counted: set<string>, rest: set<string>)
    requires Parted(Subjects(inventory), counted, rest) && rest == {}
    ensures counted - lanes.Keys == Unmatched(inventory, lanes)
  {
    hide Subjects;
    assert counted == Subjects(inventory);
  }

  // The outcomes of the lanes seen so far.
  ghost predicate Tallied(
    outcomes: seq<Verdict>, unmatched: nat, descriptors: seq<Descriptor>, listed: seq<Listed>, byReason: map<Reason, nat>)
  {
    && descriptors == Descriptors(outcomes) && listed == NotReviewed(outcomes)
    && forall r :: Tally(byReason, r) == CountReason(listed, r) + if r.InvalidInventoryLane? then unmatched else 0
  }

  lemma TalliedMore(
    outcomes: seq<Verdict>, unmatched: nat, descriptors: seq<Descriptor>, listed: seq<Listed>, byReason: map<Reason, nat>, o: Verdict)
    requires Tallied(outcomes, unmatched, descriptors, listed, byReason)
    ensures o.Covered? ==> Tallied(outcomes + [o], unmatched, descriptors + [o.descriptor], listed, byReason)
    ensures o.NotCovered? ==> Tallied(
      outcomes + [o], unmatched, descriptors, listed + [o.listed],
      byReason[o.listed.reason := Tally(byReason, o.listed.reason) + 1])
  {
    hide Descriptors, NotReviewed, CountReason;
    DescriptorsMore(outcomes, o);
    assert Descriptors(outcomes) + [] == Descriptors(outcomes) && NotReviewed(outcomes) + [] == NotReviewed(outcomes);
    if o.NotCovered? {
      forall r
        ensures CountReason(listed + [o.listed], r) == CountReason(listed, r) + if o.listed.reason == r then 1 else 0
      {
        CountReasonMore(listed, o.listed, r);
      }
    }
  }

  method DecideLane(env: Env, input: Input, lane: Lane) returns (o: Verdict)
    ensures o == LaneOutcome(env, input.inventory, input.lookbacks, lane)
  {
    hide AdmissionOf, SortedValues;
    var found := RecordOf(input.inventory, lane.subject);
    var assetIds := SortedValues(AssetIds(lane.contributors));
    var controlIds := SortedValues(ControlIds(lane.contributors));
    if found.None? {
      return NotCovered(Listed(lane.subject, NoReviewedInventory, assetIds, controlIds, [], []));
    }
    var a := AdmitInventoryLane(env, lane, found.value, input.lookbacks);
    if a.descriptor.Some? {
      return Covered(a.descriptor.value, a.uncovered);
    }
    var reason := if a.reason.Some? then a.reason.value else InvalidInventoryLane;
    return NotCovered(Listed(lane.subject, reason, assetIds, controlIds, a.unpinned, a.uncovered));
  }

  lemma OutcomesMore(env: Env, input: Input, lanes: Lanes, keys: seq<string>, i: nat)
    requires i < |keys| && forall k :: k in keys ==> k in lanes
    ensures Outcomes(env, input, lanes, keys[..i + 1]) ==
      Outcomes(env, input, lanes, keys[..i]) + [LaneOutcome(env, input.inventory, input.lookbacks, lanes[keys[i]])]
  {
    hide LaneOutcome;
  }

  method DecideLanes(env: Env, input: Input, lanes: Lanes, keys: seq<string>)
    returns (descriptors: seq<Descriptor>, listed: seq<Listed>, byReason: map<Reason, nat>)
    requires forall k :: k in keys ==> k in lanes
    ensures Tallied(
      Outcomes(env, input, lanes, keys), |Unmatched(input.inventory, lanes)|, descriptors, listed, byReason)
  {
    byReason := CountUnmatched(input.inventory, lanes);
    descriptors, listed := [], [];
    ghost var unmatched := |Unmatched(input.inventory, lanes)|;
    assert Outcomes(env, input, lanes, keys[..0]) == [];
    assert Tallied([], unmatched, descriptors, listed, byReason);
    hide Tallied, LaneOutcome, Unmatched, Outcomes, Invalid, Tally;
    for i := 0 to |keys|
      invariant Tallied(Outcomes(env, input, lanes, keys[..i]), unmatched, descriptors, listed, byReason)
    {
      assert keys[i] in keys;
      ghost var done := Outcomes(env, input, lanes, keys[..i]);
      var o := DecideLane(env, input, lanes[keys[i]]);
      TalliedMore(done, unmatched, descriptors, listed, byReason, o);
      OutcomesMore(env, input, lanes, keys, i);
      if o.Covered? {
        descriptors := descriptors + [o.descriptor];
      } else {
        byReason := byReason[o.listed.reason := Tally(byReason, o.listed.reason) + 1];
        listed := listed + [o.listed];
      }
    }
    assert keys[..|keys|] == keys;
  }

  // The lane keys as a list, in whatever order the map gives them.
  method ListKeys(lanes: Lanes) returns (keys: seq<string>)
    ensures forall k :: k in keys <==> k in lanes
  {
    keys := [];
    var rest := lanes.Keys;
    while rest != {}
      invariant forall k :: k in lanes <==> k in keys || k in rest
      decreases |rest|
    {
      var k :| k in rest;
      rest := rest - {k};
      keys := keys + [k];
    }
  }

  lemma {:induction false} DerivedFrom(
    env: Env, registry: Registry, input: Input, t: Tallies, keys: seq<string>, descriptors: seq<Descriptor>,
    listed: seq<Listed>, byReason: map<Reason, nat>)
    requires Counted(t, Kinds(registry, input.records)) && KeysOf(keys, t.lanes)
    requires Tallied(
      Outcomes(env, input, t.lanes, keys), |Unmatched(input.inventory, t.lanes)|, descriptors, listed, byReason)
    ensures Derived(
      env, registry, input, keys,
      Artifact(|t.lanes|, descriptors, listed, byReason, t.routeRefs, t.nonEvm, t.malformed, |t.nonEvmKeys|))
  {
    hide Outcomes, LanesOf, Entries, Kinds, CountReason, Descriptors, NotReviewed, NonEvmKeys, CountNonEvm, CountMalformed,
      Increasing, Unmatched, Tally;
  }

  method Derive(env: Env, registry: Registry, input: Input) returns (a: Artifact)
    ensures exists keys :: Derived(env, registry, input, keys, a)
  {
    hide *;
    var t := CountRecords(registry, input.records);
    var unsorted := ListKeys(t.lanes);
    var sorted := SortedValues(unsorted);
    SortedKeys(unsorted, t.lanes);
    var descriptors, listed, byReason := DecideLanes(env, input, t.lanes, sorted);
    DerivedFrom(env, registry, input, t, sorted, descriptors, listed, byReason);
    a := Artifact(
      |t.lanes|, descriptors, listed, byReason, t.routeRefs, t.nonEvm, t.malformed, |t.nonEvmKeys|);
  }

  lemma {:induction false} SortedKeys(unsorted: seq<string>, lanes: Lanes)
    requires forall k :: k in unsorted <==> k in lanes
    ensures KeysOf(SortedValues(unsorted), lanes)
    ensures forall k :: k in SortedValues(unsorted) <==> k in lanes
  {
    SortedValuesMeans(unsorted);
  }
}
