// The counts in the summary of `deriveLaneEmitterDescriptors` in
// scripts/build-data/generate-safety-score-v9-lane-emitter-descriptors.ts, in terms of the control records
// and of the lanes that are listed.
module LaneCounts {
  import opened DeploymentIds
  import opened LaneAdmission
  import opened LaneDescriptors
  import opened LaneLaws
  import opened LaneCatalogue

  ghost function Refs(records: seq<Record>): set<At> {
    set i: nat, k: nat | i < |records| && k < |records[i].routeRefs| && records[i].isBridge :: At(i, k)
  }

  ghost function OffChain(registry: Registry, records: seq<Record>): set<At> {
    set p | p in Refs(records) && !IsEvm(registry, Ref(records, p))
  }

  ghost function Nameless(registry: Registry, records: seq<Record>): set<At> {
    set p | p in Refs(records) && IsEvm(registry, Ref(records, p)) && Normalize(registry, Ref(records, p)) == ""
  }

  // Lanes on other chains go by their normal form, or by the reference itself where there is none.
  ghost function OffChainLanes(registry: Registry, records: seq<Record>): set<string> {
    set p | p in OffChain(registry, records) :: OffChainKey(registry, Ref(records, p))
  }

  function OffChainKey(registry: Registry, ref: string): string {
    if Normalize(registry, ref) == "" then ref else Normalize(registry, ref)
  }

  ghost function Strays(registry: Registry, input: Input): set<string> {
    set n: nat | n < |input.inventory| && !IsLane(registry, input.records, input.inventory[n].subject) :: input.inventory[n].subject
  }

  ghost function WithReason(listed: seq<Listed>, r: Reason): set<nat> {
    set i: nat | i < |listed| && listed[i].reason == r
  }

  // Every reference is counted, and by what it is; and each reason by the lanes listed for it, the first
  // together with the subjects of the inventory that are no lane.
  ghost predicate CountsAll(registry: Registry, input: Input, a: Artifact) {
    && a.routeRefs == |Refs(input.records)| && a.nonEvm == |OffChain(registry, input.records)|
    && a.malformed == |Nameless(registry, input.records)| && a.lanesNonEvm == |OffChainLanes(registry, input.records)|
    && forall r :: Tally(a.byReason, r) ==
         |WithReason(a.notReviewed, r)| + if r.InvalidInventoryLane? then |Strays(registry, input)| else 0
  }

  predicate Chosen(kind: RefKind, evm: bool) {
    if evm then kind.Malformed? else kind.NonEvm?
  }

  ghost function KindAmong(kinds: seq<RefKind>, places: seq<At>, evm: bool): set<At>
    requires |kinds| == |places|
  {
    if kinds == [] then {}
    else
      var n := |kinds| - 1;
      KindAmong(kinds[..n], places[..n], evm) + if Chosen(kinds[n], evm) then {places[n]} else {}
  }

  lemma {:induction false} AmongMeans(kinds: seq<RefKind>, places: seq<At>, evm: bool, p: At)
    requires |kinds| == |places|
    ensures p in KindAmong(kinds, places, evm) <==> exists m :: 0 <= m < |kinds| && Chosen(kinds[m], evm) && places[m] == p
  {
    hide Chosen;
    if kinds != [] {
      var n := |kinds| - 1;
      AmongMeans(kinds[..n], places[..n], evm, p);
      assert forall m :: 0 <= m < n ==> kinds[..n][m] == kinds[m] && places[..n][m] == places[m];
    }
  }

  lemma {:induction false} KindsCounted(kinds: seq<RefKind>, places: seq<At>)
    requires |kinds| == |places| && forall l, m :: 0 <= l < m < |places| ==> places[l] != places[m]
    ensures CountNonEvm(kinds) == |KindAmong(kinds, places, false)| && CountMalformed(kinds) == |KindAmong(kinds, places, true)|
  {
    if kinds != [] {
      var n := |kinds| - 1;
      KindsCounted(kinds[..n], places[..n]);
      AmongMeans(kinds[..n], places[..n], false, places[n]);
      AmongMeans(kinds[..n], places[..n], true, places[n]);
    }
  }

  lemma {:induction false} PlacesCounted(places: seq<At>)
    requires forall l, m :: 0 <= l < m < |places| ==> places[l] != places[m]
    ensures |places| == |set p | p in places|
  {
    if places != [] {
      var n := |places| - 1;
      PlacesCounted(places[..n]);
      assert places == places[..n] + [places[n]];
      assert (set p | p in places) == (set p | p in places[..n]) + {places[n]};
    }
  }

  lemma {:induction false} ReasonsCounted(listed: seq<Listed>, r: Reason)
    ensures CountReason(listed, r) == |WithReason(listed, r)|
  {
    if listed != [] {
      var n := |listed| - 1;
      ReasonsCounted(listed[..n], r);
      assert WithReason(listed, r) == WithReason(listed[..n], r) + if listed[n].reason == r then {n} else {};
    }
  }

  lemma {:induction false} RefsCounted(registry: Registry, records: seq<Record>)
    ensures var kinds := Kinds(registry, records);
      && |kinds| == |Refs(records)| && CountNonEvm(kinds) == |OffChain(registry, records)|
      && CountMalformed(kinds) == |Nameless(registry, records)| && NonEvmKeys(kinds) == OffChainLanes(registry, records)
  {
    hide *;
    var kinds, places := Kinds(registry, records), PlacesOf(records);
    PlacesOrdered(records);
    KindsOfPlaces(registry, records);
    Distinctly(registry, records, places, kinds);
    PlacesCounted(places);
    KindsCounted(kinds, places);
    AmongRefs(registry, records, places, kinds);
    KeysAmong(registry, records, places, kinds);
  }

  lemma Distinctly(registry: Registry, records: seq<Record>, places: seq<At>, kinds: seq<RefKind>)
    requires Ordered(records, places) && KindsAt(registry, records, places, kinds)
    ensures |kinds| == |places| && (set p | p in places) == Refs(records)
    ensures forall l, m :: 0 <= l < m < |places| ==> places[l] != places[m]
    ensures forall p :: p in places <==> p in Refs(records)
  {
    forall p
      ensures p in places <==> p in Refs(records)
    {
      assert p in Refs(records) <==> RefAt(records, p);
    }
  }

  lemma {:induction false} AmongRefs(registry: Registry, records: seq<Record>, places: seq<At>, kinds: seq<RefKind>)
    requires KindsAt(registry, records, places, kinds) && forall p :: p in places <==> p in Refs(records)
    ensures KindAmong(kinds, places, false) == OffChain(registry, records)
    ensures KindAmong(kinds, places, true) == Nameless(registry, records)
  {
    hide Normalize, IsEvm, ChainOf, Refs, KindAmong;
    forall p
      ensures p in KindAmong(kinds, places, false) <==> p in OffChain(registry, records)
      ensures p in KindAmong(kinds, places, true) <==> p in Nameless(registry, records)
    {
      AmongMeans(kinds, places, false, p);
      AmongMeans(kinds, places, true, p);
      if p in places {
        var m :| 0 <= m < |places| && places[m] == p;
      }
    }
  }

  lemma KeysAmong(registry: Registry, records: seq<Record>, places: seq<At>, kinds: seq<RefKind>)
    requires KindsAt(registry, records, places, kinds) && forall p :: p in places <==> p in Refs(records)
    ensures NonEvmKeys(kinds) == OffChainLanes(registry, records)
  {
    hide Normalize, IsEvm, ChainOf, Refs;
    forall key
      ensures key in NonEvmKeys(kinds) <==> key in OffChainLanes(registry, records)
    {
      if key in NonEvmKeys(kinds) {
        var m :| 0 <= m < |kinds| && kinds[m].NonEvm? && kinds[m].laneKey == key;
        assert places[m] in OffChain(registry, records);
      }
      if key in OffChainLanes(registry, records) {
        var p :| p in OffChain(registry, records) && OffChainKey(registry, Ref(records, p)) == key;
        var m :| 0 <= m < |places| && places[m] == p;
        assert kinds[m].NonEvm?;
      }
    }
  }

  // The counts of the artefact that is derived are those of the records and the lists.
  lemma DerivedCounts(env: Env, registry: Registry, input: Input, keys: seq<string>, a: Artifact)
    requires Derived(env, registry, input, keys, a)
    ensures CountsAll(registry, input, a)
  {
    hide *;
    DerivedFields(env, registry, input, keys, a);
    DerivedTallies(env, registry, input, keys, a);
    RefsCounted(registry, input.records);
    StraysAre(registry, input);
    CountsFrom(registry, input, a);
  }

  lemma {:induction false} StraysAre(registry: Registry, input: Input)
    ensures Subjects(input.inventory) - LanesOf(Entries(Kinds(registry, input.records))).Keys == Strays(registry, input)
  {
    LanesMean(registry, input.records);
    hide LanesOf, Entries, Kinds, IsLane;
  }

  lemma CountsFrom(registry: Registry, input: Input, a: Artifact)
    requires a.routeRefs == |Refs(input.records)| && a.nonEvm == |OffChain(registry, input.records)|
    requires a.malformed == |Nameless(registry, input.records)| && a.lanesNonEvm == |OffChainLanes(registry, input.records)|
    requires forall r ::
      Tally(a.byReason, r) == CountReason(a.notReviewed, r) + if r.InvalidInventoryLane? then |Strays(registry, input)| else 0
    ensures CountsAll(registry, input, a)
  {
    hide Refs, OffChain, Nameless, OffChainLanes, Strays, WithReason, CountReason, Tally;
    forall r
      ensures Tally(a.byReason, r) ==
        |WithReason(a.notReviewed, r)| + if r.InvalidInventoryLane? then |Strays(registry, input)| else 0
    {
      ReasonsCounted(a.notReviewed, r);
    }
  }
}
