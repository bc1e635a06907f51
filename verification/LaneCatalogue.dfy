// What the lane artefact says of every lane, in terms of the control records and the reviewed inventory.
module LaneCatalogue {
  import opened SortedText
  import opened DeploymentIds
  import opened LaneAdmission
  import opened LaneReasons
  import opened LaneDescriptors
  import opened LaneLaws

  // -------------------------------------------------------------- the records

  // A route reference of a bridge control.
  datatype At = At(i: nat, k: nat)

  predicate RefAt(records: seq<Record>, p: At) {
    p.i < |records| && records[p.i].isBridge && p.k < |records[p.i].routeRefs|
  }

  function Ref(records: seq<Record>, p: At): string
    requires RefAt(records, p)
  {
    records[p.i].routeRefs[p.k]
  }

  predicate Earlier(p: At, q: At) {
    p.i < q.i || (p.i == q.i && p.k < q.k)
  }

  // A reference to an EVM chain whose normal form is a key.
  predicate Refers(registry: Registry, records: seq<Record>, key: string, p: At) {
    RefAt(records, p) && IsEvm(registry, Ref(records, p)) && key != "" && Normalize(registry, Ref(records, p)) == key
  }

  ghost predicate IsLane(registry: Registry, records: seq<Record>, key: string) {
    exists p :: Refers(registry, records, key, p)
  }

  // The chain that the first reference to a lane names.
  ghost predicate HasChain(registry: Registry, records: seq<Record>, key: string, chain: string) {
    exists p ::
      && Refers(registry, records, key, p) && chain == ChainOf(registry, Ref(records, p))
      && forall q :: Earlier(q, p) ==> !Refers(registry, records, key, q)
  }

  // The assets and the controls that refer to a lane, in order and each once.
  ghost predicate GathersAssets(registry: Registry, records: seq<Record>, key: string, assetIds: seq<string>) {
    && Increasing(assetIds)
    && forall a :: a in assetIds <==> exists p :: Refers(registry, records, key, p) && records[p.i].assetId == a
  }

  ghost predicate GathersControls(registry: Registry, records: seq<Record>, key: string, ids: seq<string>) {
    && Increasing(ids)
    && forall c :: c in ids <==> exists p :: Refers(registry, records, key, p) && records[p.i].controlId == c
  }

  // -------------------------------------------------------------- the inventory

  ghost predicate Names(inventory: seq<Inventory>, key: string) {
    exists n :: 0 <= n < |inventory| && inventory[n].subject == key
  }

  // Of several records for one lane the last counts.
  ghost predicate NamesLast(inventory: seq<Inventory>, key: string, record: Inventory) {
    exists n ::
      && 0 <= n < |inventory| && inventory[n] == record && record.subject == key
      && forall m :: n < m < |inventory| ==> inventory[m].subject != key
  }

  lemma {:induction false} RecordOfMeans(inventory: seq<Inventory>, key: string)
    ensures RecordOf(inventory, key).None? <==> !Names(inventory, key)
    ensures RecordOf(inventory, key).Some? ==> NamesLast(inventory, key, RecordOf(inventory, key).value)
  {
    if inventory != [] {
      var n := |inventory| - 1;
      var before := inventory[..n];
      if inventory[n].subject != key {
        RecordOfMeans(before, key);
        assert forall m :: 0 <= m < n ==> before[m] == inventory[m];
      }
    }
  }

  // -------------------------------------------------------------- the catalogue

  // A descriptor: nothing holds against the last record of its lane, and it describes lane and record.
  ghost predicate DescriptorSays(env: Env, registry: Registry, input: Input, d: Descriptor) {
    exists record, chain ::
      && NamesLast(input.inventory, d.subject, record)
      && HasChain(registry, input.records, d.subject, chain)
      && GathersAssets(registry, input.records, d.subject, d.assetIds)
      && GathersControls(registry, input.records, d.subject, d.controlIds)
      && Unhindered(env, chain, d.controlIds, record, input.lookbacks)
      && Describes(env, d.subject, chain, d.assetIds, d.controlIds, record, input.lookbacks, d)
  }

  // A lane that is listed: without a record it has no inventory; with one it tells the strongest reason
  // that holds against its last record, the ids without emitter and the events without screen.
  ghost predicate ListedSays(env: Env, registry: Registry, input: Input, l: Listed) {
    && GathersAssets(registry, input.records, l.subject, l.assetIds)
    && GathersControls(registry, input.records, l.subject, l.controlIds)
    && (!Names(input.inventory, l.subject) ==> l.reason.NoReviewedInventory? && l.unpinned == l.uncovered == [])
    && (Names(input.inventory, l.subject) ==>
          exists record, chain ::
            && NamesLast(input.inventory, l.subject, record) && HasChain(registry, input.records, l.subject, chain)
            && HoldsFirst(env, chain, l.controlIds, record, input.lookbacks, l.reason)
            && Increasing(l.unpinned) && (forall id :: id in l.unpinned <==> Unpinned(env, l.controlIds, record, id))
            && Increasing(l.uncovered) && (forall x :: x in l.uncovered <==> Uncoverable(env, chain, record, x)))
  }

  ghost predicate Described(descriptors: seq<Descriptor>, key: string) {
    exists d :: d in descriptors && d.subject == key
  }

  ghost predicate ListsLane(listed: seq<Listed>, key: string) {
    exists l :: l in listed && l.subject == key
  }

  // Every lane has its descriptor or is listed, never both; nothing else is in either list; and both come
  // in the order of their keys.
  ghost predicate Catalogue(env: Env, registry: Registry, input: Input, descriptors: seq<Descriptor>, listed: seq<Listed>) {
    && (forall d :: d in descriptors ==> DescriptorSays(env, registry, input, d))
    && (forall l :: l in listed ==> ListedSays(env, registry, input, l))
    && (forall key :: IsLane(registry, input.records, key) <==> Described(descriptors, key) || ListsLane(listed, key))
    && (forall key :: !(Described(descriptors, key) && ListsLane(listed, key)))
    && (forall i, j :: 0 <= i < j < |descriptors| ==> Precedes(descriptors[i].subject, descriptors[j].subject))
    && (forall i, j :: 0 <= i < j < |listed| ==> Precedes(listed[i].subject, listed[j].subject))
  }

  // -------------------------------------------------------------- references in order

  function PlacesOf(records: seq<Record>): seq<At> {
    if records == [] then []
    else
      var n := |records| - 1;
      PlacesOf(records[..n])
      + if records[n].isBridge then seq(|records[n].routeRefs|, k requires 0 <= k < |records[n].routeRefs| => At(n, k)) else []
  }

  ghost predicate Ordered(records: seq<Record>, places: seq<At>) {
    && (forall m :: 0 <= m < |places| ==> RefAt(records, places[m]))
    && (forall p :: RefAt(records, p) ==> p in places)
    && forall l, m :: 0 <= l < m < |places| ==> Earlier(places[l], places[m])
  }

  lemma {:induction false} PlacesOrdered(records: seq<Record>)
    ensures Ordered(records, PlacesOf(records))
  {
    if records != [] {
      var n := |records| - 1;
      var before := records[..n];
      PlacesOrdered(before);
      var places := PlacesOf(records);
      forall p | RefAt(records, p)
        ensures p in places
      {
        if p.i < n {
          assert RefAt(before, p);
        } else {
          assert places[|PlacesOf(before)| + p.k] == At(n, p.k);
        }
      }
    }
  }

  ghost predicate KindsAt(registry: Registry, records: seq<Record>, places: seq<At>, kinds: seq<RefKind>) {
    && |kinds| == |places|
    && forall m :: 0 <= m < |places| ==>
         RefAt(records, places[m]) && kinds[m] == KindOf(registry, records[places[m].i], Ref(records, places[m]))
  }

  lemma {:induction false} KindsOfPlaces(registry: Registry, records: seq<Record>)
    ensures KindsAt(registry, records, PlacesOf(records), Kinds(registry, records))
  {
    hide KindOf;
    if records != [] {
      var n := |records| - 1;
      KindsOfPlaces(registry, records[..n]);
    }
  }

  // -------------------------------------------------------------- lanes by reference

  predicate RouteTo(kinds: seq<RefKind>, key: string, n: nat) {
    n < |kinds| && kinds[n].Route? && kinds[n].entry.key == key
  }

  ghost predicate FirstTo(kinds: seq<RefKind>, key: string, n: nat) {
    RouteTo(kinds, key, n) && forall m: nat :: m < n ==> !RouteTo(kinds, key, m)
  }

  ghost predicate SomeRoute(kinds: seq<RefKind>, key: string) {
    exists n: nat :: RouteTo(kinds, key, n)
  }

  ghost predicate RouteBy(kinds: seq<RefKind>, key: string, c: Contributor) {
    exists n: nat :: RouteTo(kinds, key, n) && kinds[n].entry.contributor == c
  }

  ghost predicate LaneFrom(kinds: seq<RefKind>, key: string, lane: Lane) {
    && lane.subject == key
    && (exists n: nat :: FirstTo(kinds, key, n) && lane.chain == kinds[n].entry.chain)
    && forall c :: c in lane.contributors <==> RouteBy(kinds, key, c)
  }

  ghost predicate LanesFrom(kinds: seq<RefKind>, lanes: Lanes) {
    && (forall key :: key in lanes <==> SomeRoute(kinds, key))
    && forall key :: key in lanes ==> LaneFrom(kinds, key, lanes[key])
  }

  lemma RoutesGrow(kinds: seq<RefKind>, kind: RefKind, key: string)
    ensures var more := kinds + [kind];
      && (forall n: nat :: RouteTo(more, key, n) <==>
            RouteTo(kinds, key, n) || (n == |kinds| && kind.Route? && kind.entry.key == key))
      && (SomeRoute(more, key) <==> SomeRoute(kinds, key) || (kind.Route? && kind.entry.key == key))
      && (forall c :: RouteBy(more, key, c) <==>
            RouteBy(kinds, key, c) || (kind.Route? && kind.entry == Entry(key, kind.entry.chain, c)))
  {
    var more := kinds + [kind];
    forall n: nat
      ensures RouteTo(more, key, n) <==> RouteTo(kinds, key, n) || (n == |kinds| && kind.Route? && kind.entry.key == key)
    {
    }
    hide RouteTo;
    if SomeRoute(kinds, key) {
      var n: nat :| RouteTo(kinds, key, n);
      assert RouteTo(more, key, n);
    }
    if kind.Route? && kind.entry.key == key {
      assert RouteTo(more, key, |kinds|);
    }
    forall c
      ensures RouteBy(more, key, c) <==> RouteBy(kinds, key, c) || (kind.Route? && kind.entry == Entry(key, kind.entry.chain, c))
    {
      InRange(kinds, key);
      InRange(more, key);
      if RouteBy(kinds, key, c) {
        var n: nat :| RouteTo(kinds, key, n) && kinds[n].entry.contributor == c;
        assert RouteTo(more, key, n);
      }
    }
  }

  lemma InRange(kinds: seq<RefKind>, key: string)
    ensures forall n: nat :: RouteTo(kinds, key, n) ==> n < |kinds| && kinds[n].Route? && kinds[n].entry.key == key
  {
  }

  lemma LaneGrows(kinds: seq<RefKind>, kind: RefKind, key: string, lane: Lane)
    requires LaneFrom(kinds, key, lane)
    ensures LaneFrom(
      kinds + [kind], key,
      if kind.Route? && kind.entry.key == key then lane.(contributors := lane.contributors + [kind.entry.contributor]) else lane)
  {
    var more := kinds + [kind];
    RoutesGrow(kinds, kind, key);
    InRange(kinds, key);
    hide RouteTo, RouteBy;
    var n: nat :| FirstTo(kinds, key, n) && lane.chain == kinds[n].entry.chain;
    assert FirstTo(more, key, n);
  }

  lemma LaneBegins(kinds: seq<RefKind>, kind: RefKind)
    requires kind.Route? && !SomeRoute(kinds, kind.entry.key)
    ensures LaneFrom(kinds + [kind], kind.entry.key, Lane(kind.entry.key, kind.entry.chain, [] + [kind.entry.contributor]))
  {
    var more, key := kinds + [kind], kind.entry.key;
    RoutesGrow(kinds, kind, key);
    assert FirstTo(more, key, |kinds|);
    assert forall c :: !RouteBy(kinds, key, c);
  }

  lemma LanesGrow(kinds: seq<RefKind>, kind: RefKind, lanes: Lanes)
    requires LanesFrom(kinds, lanes)
    ensures LanesFrom(kinds + [kind], if kind.Route? then AddEntry(lanes, kind.entry) else lanes)
  {
    hide LaneFrom, SomeRoute;
    var after := if kind.Route? then AddEntry(lanes, kind.entry) else lanes;
    forall key: string
      ensures key in after <==> SomeRoute(kinds + [kind], key)
    {
      RoutesGrow(kinds, kind, key);
    }
    forall key | key in after
      ensures LaneFrom(kinds + [kind], key, after[key])
    {
      if key in lanes {
        LaneGrows(kinds, kind, key, lanes[key]);
      } else {
        LaneBegins(kinds, kind);
      }
    }
  }

  lemma {:induction false} LanesOfKinds(kinds: seq<RefKind>)
    ensures LanesFrom(kinds, LanesOf(Entries(kinds)))
  {
    hide AddEntry, LanesFrom, LanesOf, Entries;
    if kinds == [] {
      NoLanes();
    } else {
      var n := |kinds| - 1;
      var before, last := kinds[..n], kinds[n];
      LanesOfKinds(before);
      assert kinds == before + [last];
      EntriesMore(before, last);
      LanesGrow(before, last, LanesOf(Entries(before)));
      if last.Route? {
        LanesMore(Entries(before), last.entry);
      } else {
        assert Entries(before) + [] == Entries(before);
      }
    }
  }

  lemma NoLanes()
    ensures LanesFrom([], LanesOf(Entries([])))
  {
  }

  // What a lane holds, in terms of the records.
  ghost predicate LaneSays(registry: Registry, records: seq<Record>, lane: Lane) {
    && HasChain(registry, records, lane.subject, lane.chain)
    && GathersAssets(registry, records, lane.subject, SortedValues(AssetIds(lane.contributors)))
    && GathersControls(registry, records, lane.subject, SortedValues(ControlIds(lane.contributors)))
  }

  // The references that lead to a lane, in both forms.
  ghost predicate Alike(registry: Registry, records: seq<Record>, places: seq<At>, kinds: seq<RefKind>, key: string) {
    && |kinds| == |places|
    && forall n: nat :: n < |places| ==>
      && (RouteTo(kinds, key, n) <==> Refers(registry, records, key, places[n]))
      && (RouteTo(kinds, key, n) ==>
            && RefAt(records, places[n]) && kinds[n].Route?
            && kinds[n].entry.chain == ChainOf(registry, Ref(records, places[n]))
            && kinds[n].entry.contributor == Contributor(records[places[n].i].assetId, records[places[n].i].controlId))
  }

  lemma RoutesAlike(registry: Registry, records: seq<Record>, places: seq<At>, kinds: seq<RefKind>, key: string)
    requires KindsAt(registry, records, places, kinds)
    ensures Alike(registry, records, places, kinds, key)
  {
    hide Normalize, IsEvm, ChainOf;
  }

  // A contributor of a lane, in terms of the records.
  ghost predicate Contributes(registry: Registry, records: seq<Record>, key: string, c: Contributor) {
    exists p :: Refers(registry, records, key, p) && Contributor(records[p.i].assetId, records[p.i].controlId) == c
  }

  lemma ContributorsMean(
    registry: Registry, records: seq<Record>, places: seq<At>, kinds: seq<RefKind>, key: string, c: Contributor)
    requires Alike(registry, records, places, kinds, key) && Ordered(records, places)
    ensures RouteBy(kinds, key, c) <==> Contributes(registry, records, key, c)
    ensures SomeRoute(kinds, key) <==> IsLane(registry, records, key)
  {
    InRange(kinds, key);
    ReferenceIn(registry, records, key);
    hide RouteTo, Normalize, IsEvm, ChainOf, Refers, RefAt, Ref, Earlier;
    if Contributes(registry, records, key, c) {
      var p :| Refers(registry, records, key, p) && Contributor(records[p.i].assetId, records[p.i].controlId) == c;
      var n: nat :| 0 <= n < |places| && places[n] == p;
      assert RouteTo(kinds, key, n) && kinds[n].entry.contributor == c;
    }
    if IsLane(registry, records, key) {
      var p :| Refers(registry, records, key, p);
      var n: nat :| 0 <= n < |places| && places[n] == p;
      assert RouteTo(kinds, key, n);
    }
  }

  lemma ReferenceIn(registry: Registry, records: seq<Record>, key: string)
    ensures forall p :: Refers(registry, records, key, p) ==> RefAt(records, p) && p.i < |records|
  {
  }

  lemma EarlierFirst(records: seq<Record>, places: seq<At>, m: nat, n: nat)
    requires Ordered(records, places) && m < |places| && n < |places|
    ensures Earlier(places[m], places[n]) ==> m < n
  {
  }

  lemma ChainMeans(registry: Registry, records: seq<Record>, places: seq<At>, kinds: seq<RefKind>, key: string, lane: Lane)
    requires Alike(registry, records, places, kinds, key) && Ordered(records, places) && LaneFrom(kinds, key, lane)
    ensures HasChain(registry, records, key, lane.chain)
  {
    InRange(kinds, key);
    ReferenceIn(registry, records, key);
    hide RouteTo, ChainOf, Refers, Ordered, Earlier, RefAt, Ref;
    var n: nat :| FirstTo(kinds, key, n) && lane.chain == kinds[n].entry.chain;
    forall q | Earlier(q, places[n])
      ensures !Refers(registry, records, key, q)
    {
      if RefAt(records, q) {
        var m := PlaceOf(records, places, q);
        EarlierFirst(records, places, m, n);
      }
    }
  }

  lemma PlaceOf(records: seq<Record>, places: seq<At>, q: At) returns (m: nat)
    requires Ordered(records, places) && RefAt(records, q)
    ensures m < |places| && places[m] == q
  {
    hide Earlier, RefAt;
    m :| 0 <= m < |places| && places[m] == q;
  }

  lemma IdsOf(lane: Lane)
    ensures forall a :: a in AssetIds(lane.contributors) <==> exists c :: c in lane.contributors && c.assetId == a
    ensures forall i :: i in ControlIds(lane.contributors) <==> exists c :: c in lane.contributors && c.controlId == i
  {
    var cs := lane.contributors;
    forall c | c in cs
      ensures c.assetId in AssetIds(cs) && c.controlId in ControlIds(cs)
    {
      var n :| 0 <= n < |cs| && cs[n] == c;
      assert AssetIds(cs)[n] == c.assetId && ControlIds(cs)[n] == c.controlId;
    }
  }

  lemma Gathered(registry: Registry, records: seq<Record>, lane: Lane)
    requires forall c :: c in lane.contributors <==> Contributes(registry, records, lane.subject, c)
    ensures GathersAssets(registry, records, lane.subject, SortedValues(AssetIds(lane.contributors)))
    ensures GathersControls(registry, records, lane.subject, SortedValues(ControlIds(lane.contributors)))
  {
    IdsOf(lane);
    SortedValuesMeans(AssetIds(lane.contributors));
    SortedValuesMeans(ControlIds(lane.contributors));
    ReferenceIn(registry, records, lane.subject);
    hide SortedValues, AssetIds, ControlIds, Increasing, Refers;
    forall p | Refers(registry, records, lane.subject, p)
      ensures Contributor(records[p.i].assetId, records[p.i].controlId) in lane.contributors
    {
      assert Contributes(registry, records, lane.subject, Contributor(records[p.i].assetId, records[p.i].controlId));
    }
  }

  // The lanes are exactly the keys referred to, each as the records say.
  lemma {:induction false} LanesMean(registry: Registry, records: seq<Record>)
    ensures var lanes := LanesOf(Entries(Kinds(registry, records)));
      && (forall key :: key in lanes <==> IsLane(registry, records, key))
      && forall key :: key in lanes ==> lanes[key].subject == key && LaneSays(registry, records, lanes[key])
  {
    var places, kinds := PlacesOf(records), Kinds(registry, records);
    var lanes := LanesOf(Entries(kinds));
    PlacesOrdered(records);
    KindsOfPlaces(registry, records);
    LanesOfKinds(kinds);
    hide PlacesOf, Kinds, LanesOf, Entries, Ordered, KindsAt, Alike, SomeRoute, RouteBy, IsLane, Contributes, HasChain, GathersAssets,
      GathersControls, SortedValues;
    forall key: string
      ensures SomeRoute(kinds, key) <==> IsLane(registry, records, key)
      ensures forall c :: RouteBy(kinds, key, c) <==> Contributes(registry, records, key, c)
    {
      RoutesAlike(registry, records, places, kinds, key);
      forall c
        ensures RouteBy(kinds, key, c) <==> Contributes(registry, records, key, c)
      {
        ContributorsMean(registry, records, places, kinds, key, c);
      }
      ContributorsMean(registry, records, places, kinds, key, Contributor("", ""));
    }
    forall key | key in lanes
      ensures lanes[key].subject == key && LaneSays(registry, records, lanes[key])
    {
      RoutesAlike(registry, records, places, kinds, key);
      ChainMeans(registry, records, places, kinds, key, lanes[key]);
      Gathered(registry, records, lanes[key]);
    }
  }

  // -------------------------------------------------------------- every lane decided

  ghost predicate OutcomeSays(env: Env, registry: Registry, input: Input, key: string, v: Verdict) {
    match v
    case Covered(d, _) => d.subject == key && DescriptorSays(env, registry, input, d)
    case NotCovered(l) => l.subject == key && ListedSays(env, registry, input, l)
  }

  lemma LaneDecided(env: Env, registry: Registry, input: Input, lane: Lane)
    requires LaneSays(registry, input.records, lane)
    ensures OutcomeSays(env, registry, input, lane.subject, LaneOutcome(env, input.inventory, input.lookbacks, lane))
  {
    var key, chain := lane.subject, lane.chain;
    var assetIds, ids := SortedValues(AssetIds(lane.contributors)), SortedValues(ControlIds(lane.contributors));
    hide SortedValues, AdmissionOf, HasChain, GathersAssets, GathersControls, RecordOf, NamesLast, Names, Unpinned, Uncoverable,
      Increasing, HoldsFirst, Unhindered;
    RecordOfMeans(input.inventory, key);
    if RecordOf(input.inventory, key).Some? {
      var record := RecordOf(input.inventory, key).value;
      AdmissionMeans(env, key, chain, assetIds, ids, record, input.lookbacks);
      DescribesItself(env, key, chain, assetIds, ids, record, input.lookbacks);
    }
  }

  lemma DescribesItself(
    env: Env, key: string, chain: string, assetIds: seq<string>, ids: seq<string>, record: Inventory, lookbacks: map<string, nat>)
    ensures forall d :: Describes(env, key, chain, assetIds, ids, record, lookbacks, d) ==>
      d.subject == key && d.assetIds == assetIds && d.controlIds == ids
  {
  }

  lemma {:induction false} VerdictsListed(outcomes: seq<Verdict>)
    ensures forall d :: d in Descriptors(outcomes) <==> exists i :: 0 <= i < |outcomes| && outcomes[i].Covered? && outcomes[i].descriptor == d
    ensures forall l :: l in NotReviewed(outcomes) <==> exists i :: 0 <= i < |outcomes| && outcomes[i].NotCovered? && outcomes[i].listed == l
  {
    if outcomes != [] {
      var n := |outcomes| - 1;
      VerdictsListed(outcomes[..n]);
      assert outcomes == outcomes[..n] + [outcomes[n]];
    }
  }

  // The subject of a verdict.
  function SubjectOf(v: Verdict): string {
    match v
    case Covered(d, _) => d.subject
    case NotCovered(l) => l.subject
  }

  ghost predicate InKeyOrder(outcomes: seq<Verdict>) {
    forall i, j :: 0 <= i < j < |outcomes| ==> Precedes(SubjectOf(outcomes[i]), SubjectOf(outcomes[j]))
  }

  lemma {:induction false} VerdictsOrdered(outcomes: seq<Verdict>)
    requires InKeyOrder(outcomes)
    ensures var ds := Descriptors(outcomes); forall i, j :: 0 <= i < j < |ds| ==> Precedes(ds[i].subject, ds[j].subject)
    ensures var ls := NotReviewed(outcomes); forall i, j :: 0 <= i < j < |ls| ==> Precedes(ls[i].subject, ls[j].subject)
  {
    hide Precedes;
    if outcomes != [] {
      var n := |outcomes| - 1;
      var before := outcomes[..n];
      VerdictsOrdered(before);
      VerdictsListed(before);
      forall i | 0 <= i < |Descriptors(before)|
        ensures Precedes(Descriptors(before)[i].subject, SubjectOf(outcomes[n]))
      {
        var d := Descriptors(before)[i];
        assert d in Descriptors(before);
        var k :| 0 <= k < n && before[k].Covered? && before[k].descriptor == d;
        assert SubjectOf(outcomes[k]) == d.subject;
      }
      forall i | 0 <= i < |NotReviewed(before)|
        ensures Precedes(NotReviewed(before)[i].subject, SubjectOf(outcomes[n]))
      {
        var l := NotReviewed(before)[i];
        assert l in NotReviewed(before);
        var k :| 0 <= k < n && before[k].NotCovered? && before[k].listed == l;
        assert SubjectOf(outcomes[k]) == l.subject;
      }
      DescriptorsMore(before, outcomes[n]);
      assert outcomes == before + [outcomes[n]];
      hide Descriptors, NotReviewed;
      assert Descriptors(before) + [] == Descriptors(before) && NotReviewed(before) + [] == NotReviewed(before);
    }
  }

  lemma {:induction false} IncreasingPairs(keys: seq<string>)
    requires Increasing(keys)
    ensures forall i, j :: 0 <= i < j < |keys| ==> Precedes(keys[i], keys[j])
  {
    if keys != [] {
      IncreasingPairs(keys[1..]);
      forall j | 0 < j < |keys|
        ensures Precedes(keys[0], keys[j])
      {
        assert keys[j] == keys[1..][j - 1];
        FirstIsLeast(keys, keys[j]);
      }
      hide Precedes;
      forall i, j | 0 <= i < j < |keys|
        ensures Precedes(keys[i], keys[j])
      {
        if i > 0 {
          assert keys[i] == keys[1..][i - 1] && keys[j] == keys[1..][j - 1];
        }
      }
    }
  }

  // One verdict for each key, as its lane says, in order.
  ghost predicate Decided(env: Env, registry: Registry, input: Input, keys: seq<string>, outcomes: seq<Verdict>) {
    && |outcomes| == |keys|
    && (forall i :: 0 <= i < |keys| ==> OutcomeSays(env, registry, input, keys[i], outcomes[i]))
    && forall i, j :: 0 <= i < j < |keys| ==> Precedes(keys[i], keys[j])
  }

  lemma {:induction false} AllDecided(env: Env, registry: Registry, input: Input, keys: seq<string>)
    requires var lanes := LanesOf(Entries(Kinds(registry, input.records))); KeysOf(keys, lanes) && forall k :: k in keys ==> k in lanes
    ensures var lanes := LanesOf(Entries(Kinds(registry, input.records)));
      Decided(env, registry, input, keys, Outcomes(env, input, lanes, keys))
    ensures forall key :: key in keys <==> IsLane(registry, input.records, key)
  {
    var lanes := LanesOf(Entries(Kinds(registry, input.records)));
    LanesMean(registry, input.records);
    IncreasingPairs(keys);
    hide LanesOf, Entries, Kinds, Increasing, OutcomeSays, LaneSays, IsLane, LaneOutcome, Precedes;
    forall i | 0 <= i < |keys|
      ensures OutcomeSays(env, registry, input, keys[i], Outcomes(env, input, lanes, keys)[i])
    {
      assert keys[i] in keys;
      LaneDecided(env, registry, input, lanes[keys[i]]);
    }
  }

  lemma DecidedSubjects(env: Env, registry: Registry, input: Input, keys: seq<string>, outcomes: seq<Verdict>)
    requires Decided(env, registry, input, keys, outcomes)
    ensures InKeyOrder(outcomes) && |outcomes| == |keys|
    ensures forall i :: 0 <= i < |keys| ==> SubjectOf(outcomes[i]) == keys[i]
    ensures forall i :: 0 <= i < |keys| && outcomes[i].Covered? ==> DescriptorSays(env, registry, input, outcomes[i].descriptor)
    ensures forall i :: 0 <= i < |keys| && outcomes[i].NotCovered? ==> ListedSays(env, registry, input, outcomes[i].listed)
    ensures forall i, j :: 0 <= i < |keys| && 0 <= j < |keys| && keys[i] == keys[j] ==> i == j
  {
    hide DescriptorSays, ListedSays, Precedes;
    assert forall i :: 0 <= i < |keys| ==> OutcomeSays(env, registry, input, keys[i], outcomes[i]);
    forall i, j | 0 <= i < j < |keys|
      ensures keys[i] != keys[j]
    {
      PrecedesTotal(keys[i], keys[i]);
    }
  }

  // The two lists make a catalogue.
  lemma {:induction false} CatalogueOf(env: Env, registry: Registry, input: Input, keys: seq<string>, outcomes: seq<Verdict>)
    requires Decided(env, registry, input, keys, outcomes) && forall key :: key in keys <==> IsLane(registry, input.records, key)
    ensures Catalogue(env, registry, input, Descriptors(outcomes), NotReviewed(outcomes))
  {
    DecidedSubjects(env, registry, input, keys, outcomes);
    VerdictsListed(outcomes);
    VerdictsOrdered(outcomes);
    hide Decided, DescriptorSays, ListedSays, Precedes, Descriptors, NotReviewed, IsLane, InKeyOrder;
    var ds, ls := Descriptors(outcomes), NotReviewed(outcomes);
    forall key: string
      ensures key in keys <==> Described(ds, key) || ListsLane(ls, key)
      ensures !(Described(ds, key) && ListsLane(ls, key))
    {
      if key in keys {
        var i :| 0 <= i < |keys| && keys[i] == key;
        if outcomes[i].Covered? {
          assert outcomes[i].descriptor in ds;
        } else {
          assert outcomes[i].listed in ls;
        }
      }
      KeyedOnce(keys, outcomes, ds, ls, key);
    }
  }

  lemma KeyedOnce(keys: seq<string>, outcomes: seq<Verdict>, ds: seq<Descriptor>, ls: seq<Listed>, key: string)
    requires |outcomes| == |keys| && forall i :: 0 <= i < |keys| ==> SubjectOf(outcomes[i]) == keys[i]
    requires forall i, j :: 0 <= i < |keys| && 0 <= j < |keys| && keys[i] == keys[j] ==> i == j
    requires forall d :: d in ds <==> exists i :: 0 <= i < |outcomes| && outcomes[i].Covered? && outcomes[i].descriptor == d
    requires forall l :: l in ls <==> exists i :: 0 <= i < |outcomes| && outcomes[i].NotCovered? && outcomes[i].listed == l
    ensures Described(ds, key) || ListsLane(ls, key) ==> key in keys
    ensures !(Described(ds, key) && ListsLane(ls, key))
  {
    if Described(ds, key) {
      var d :| d in ds && d.subject == key;
      var i :| 0 <= i < |outcomes| && outcomes[i].Covered? && outcomes[i].descriptor == d;
      assert keys[i] == key;
      forall l | l in ls
        ensures l.subject != key
      {
        var j :| 0 <= j < |outcomes| && outcomes[j].NotCovered? && outcomes[j].listed == l;
        assert keys[j] == l.subject && i != j;
      }
    }
    if ListsLane(ls, key) {
      var l :| l in ls && l.subject == key;
      var j :| 0 <= j < |outcomes| && outcomes[j].NotCovered? && outcomes[j].listed == l;
      assert keys[j] == key;
    }
  }

  // The artefact that is derived is such a catalogue, whatever its records and inventory.
  lemma DerivedIsCatalogue(env: Env, registry: Registry, input: Input, keys: seq<string>, a: Artifact)
    requires Derived(env, registry, input, keys, a)
    ensures Catalogue(env, registry, input, a.descriptors, a.notReviewed)
  {
    hide *;
    var lanes := LanesOf(Entries(Kinds(registry, input.records)));
    DerivedFields(env, registry, input, keys, a);
    AllDecided(env, registry, input, keys);
    CatalogueOf(env, registry, input, keys, Outcomes(env, input, lanes, keys));
  }

  // -------------------------------------------------------------- which lanes are covered

  // The last record of a lane names it and nothing holds against it.
  ghost predicate Passes(env: Env, registry: Registry, input: Input, key: string) {
    exists record, chain, ids ::
      && NamesLast(input.inventory, key, record) && HasChain(registry, input.records, key, chain)
      && GathersControls(registry, input.records, key, ids) && Unhindered(env, chain, ids, record, input.lookbacks)
  }

  lemma OneRecord(inventory: seq<Inventory>, key: string, a: Inventory, b: Inventory)
    requires NamesLast(inventory, key, a) && NamesLast(inventory, key, b)
    ensures a == b && Names(inventory, key)
  {
  }

  lemma OneChain(registry: Registry, records: seq<Record>, key: string, a: string, b: string)
    requires HasChain(registry, records, key, a) && HasChain(registry, records, key, b)
    ensures a == b
  {
    hide Refers, ChainOf;
    ReferenceIn(registry, records, key);
    var p :| Refers(registry, records, key, p) && a == ChainOf(registry, Ref(records, p))
      && forall q :: Earlier(q, p) ==> !Refers(registry, records, key, q);
    var q :| Refers(registry, records, key, q) && b == ChainOf(registry, Ref(records, q))
      && forall r :: Earlier(r, q) ==> !Refers(registry, records, key, r);
    assert !Earlier(p, q) && !Earlier(q, p);
  }

  lemma OneList(registry: Registry, records: seq<Record>, key: string, a: seq<string>, b: seq<string>)
    requires GathersControls(registry, records, key, a) && GathersControls(registry, records, key, b)
    ensures a == b
  {
    hide Increasing, Refers;
    IncreasingUnique(a, b);
  }

  // What a listed lane says shows that it does not pass.
  lemma ListedFails(env: Env, registry: Registry, input: Input, l: Listed)
    requires ListedSays(env, registry, input, l)
    ensures !Passes(env, registry, input, l.subject)
    ensures l.reason.NoReviewedInventory? <==> !Names(input.inventory, l.subject)
  {
    var key := l.subject;
    hide HasChain, GathersAssets, GathersControls, NamesLast, Names, Holds, Unpinned, Uncoverable, Increasing;
    forall record, chain, ids |
      && NamesLast(input.inventory, key, record) && HasChain(registry, input.records, key, chain)
      && GathersControls(registry, input.records, key, ids)
      ensures !Unhindered(env, chain, ids, record, input.lookbacks)
    {
      OneRecord(input.inventory, key, record, record);
      var last, first :| NamesLast(input.inventory, key, last) && HasChain(registry, input.records, key, first)
        && HoldsFirst(env, first, l.controlIds, last, input.lookbacks, l.reason);
      OneRecord(input.inventory, key, record, last);
      OneChain(registry, input.records, key, chain, first);
      OneList(registry, input.records, key, ids, l.controlIds);
    }
    ReviewedReason(env, registry, input, l);
  }

  lemma ReviewedReason(env: Env, registry: Registry, input: Input, l: Listed)
    requires ListedSays(env, registry, input, l)
    ensures l.reason.NoReviewedInventory? <==> !Names(input.inventory, l.subject)
  {
    hide HasChain, GathersAssets, GathersControls, NamesLast, Names, Unpinned, Uncoverable, Increasing;
  }

  lemma DescribedPasses(env: Env, registry: Registry, input: Input, d: Descriptor)
    requires DescriptorSays(env, registry, input, d)
    ensures Passes(env, registry, input, d.subject)
  {
    hide HasChain, GathersAssets, GathersControls, NamesLast, Describes, Unhindered;
  }

  // So a lane has a descriptor exactly if it passes, is listed as not reviewed exactly if no record names
  // it, and is listed for another reason otherwise.
  lemma CoveredExactly(env: Env, registry: Registry, input: Input, descriptors: seq<Descriptor>, listed: seq<Listed>, key: string)
    requires Catalogue(env, registry, input, descriptors, listed) && IsLane(registry, input.records, key)
    ensures Described(descriptors, key) <==> Passes(env, registry, input, key)
    ensures (exists l :: l in listed && l.subject == key && l.reason.NoReviewedInventory?) <==> !Names(input.inventory, key)
    ensures (exists l :: l in listed && l.subject == key && !l.reason.NoReviewedInventory?) <==>
      Names(input.inventory, key) && !Passes(env, registry, input, key)
  {
    hide IsLane, Passes, DescriptorSays, ListedSays, Names, Precedes;
    forall d | d in descriptors
      ensures Passes(env, registry, input, d.subject)
    {
      DescribedPasses(env, registry, input, d);
    }
    forall l | l in listed
      ensures !Passes(env, registry, input, l.subject)
      ensures l.reason.NoReviewedInventory? <==> !Names(input.inventory, l.subject)
    {
      ListedFails(env, registry, input, l);
    }
    PassingIsNamed(env, registry, input, key);
  }

  lemma PassingIsNamed(env: Env, registry: Registry, input: Input, key: string)
    ensures Passes(env, registry, input, key) ==> Names(input.inventory, key)
  {
    hide HasChain, GathersControls, Unhindered;
  }
}
