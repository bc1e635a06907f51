// Which candidates `buildAuthoredCandidates` of
// scripts/build-data/generate-safety-score-v9-incident-review-key-migration.ts adds: one for each place
// in an asset's metadata that deserves one, and no other.
module MigrationSources {
  import opened Options
  import opened SortedText
  import opened MigrationKeys
  import opened MigrationIdentity

  // A route as a lane, a reference of a bridge control, a route as an aggregate, a mint control.
  datatype Place = LaneAt(i: nat) | ControlAt(c: nat, k: nat) | AggregateAt(i: nat) | MintAt(m: nat)

  ghost predicate RefersTo(env: Env, control: BridgeControl, routeId: string) {
    exists k :: 0 <= k < |control.routeRefs| && env.normalize(control.routeRefs[k]) == routeId
  }

  // The places that deserve a candidate: routes with a normal form, the first reference of a control to
  // each such route, routes that some control refers to, and every mint control.
  ghost predicate Deserves(env: Env, asset: Asset, p: Place) {
    match p
    case LaneAt(i) => i < |asset.routes| && env.normalize(asset.routes[i]) != ""
    case ControlAt(c, k) =>
      c < |asset.bridgeControls| && FirstRef(env, asset.bridgeControls[c].routeRefs, k)
    case AggregateAt(i) =>
      i < |asset.routes| && env.normalize(asset.routes[i]) != "" && Shared(env, asset, env.normalize(asset.routes[i]))
    case MintAt(m) => m < |asset.mintControls|
  }

  ghost predicate FirstRef(env: Env, refs: seq<string>, k: nat) {
    k < |refs| && env.normalize(refs[k]) != "" && forall l :: 0 <= l < k ==> env.normalize(refs[l]) != env.normalize(refs[k])
  }

  ghost predicate Shared(env: Env, asset: Asset, routeId: string) {
    exists c :: 0 <= c < |asset.bridgeControls| && RefersTo(env, asset.bridgeControls[c], routeId)
  }

  // The controls of one id that refer to a route.
  ghost function Referring(env: Env, controls: seq<BridgeControl>, routeId: string, id: string): set<nat> {
    set c: nat | c < |controls| && controls[c].id == id && RefersTo(env, controls[c], routeId)
  }

  // The ids of exactly the controls that refer to a route, each as often as it has such a control, in
  // order.
  ghost predicate AreContributors(env: Env, asset: Asset, routeId: string, ids: seq<string>) {
    && AscendingBy(Itself, ids)
    && forall id :: multiset(ids)[id] == |Referring(env, asset.bridgeControls, routeId, id)|
  }

  // The candidate of a place, under its key.
  ghost predicate Belongs(env: Env, assetId: string, asset: Asset, p: Place, e: Keyed)
    requires Deserves(env, asset, p)
  {
    match p
    case LaneAt(i) =>
      var routeId := env.normalize(asset.routes[i]);
      e == Keyed(env.bridgeKey(assetId, routeId), Lane(routeId))
    case ControlAt(c, k) =>
      var control := asset.bridgeControls[c];
      var routeId := env.normalize(control.routeRefs[k]);
      e == Keyed(env.structuredKey(assetId, control.id, routeId), Control(routeId, control.id))
    case AggregateAt(i) =>
      IsAggregate(env, assetId, asset, env.normalize(asset.routes[i]), e)
    case MintAt(m) =>
      var control := asset.mintControls[m];
      var at := (assetId, control.mintLabel);
      && e.key == env.mintKey(assetId, control) && e.candidate.Mint? && e.candidate.mintLabel == control.mintLabel
      && (e.candidate.mintRoute.Some? <==> at in env.mintRoutes)
      && (at in env.mintRoutes ==> e.candidate.mintRoute.value == env.mintRoutes[at])
  }

  // A route of one contributor takes the single form, any other the list.
  ghost predicate IsAggregate(env: Env, assetId: string, asset: Asset, routeId: string, e: Keyed) {
    exists ids ::
      && AreContributors(env, asset, routeId, ids) && ids != []
      && e.key == env.aggregateKey(assetId, routeId, ids)
      && e.candidate == if |ids| == 1 then Control(routeId, ids[0]) else LaneAggregate(routeId, ids)
  }

  // The identity that names the candidate of a place: a lane by its wildcard, a control and a sole
  // contributor by its id, several contributors by their list, a mint control by its label, with its
  // route where the table has one.
  ghost predicate NamesPlace(env: Env, assetId: string, asset: Asset, p: Place, id: Identity, resolution: Resolution)
    requires Deserves(env, asset, p)
  {
    match p
    case LaneAt(i) => resolution.ByLane? && id == Identity(assetId, Some(env.normalize(asset.routes[i])), Some("*"), None)
    case ControlAt(c, k) =>
      var control := asset.bridgeControls[c];
      resolution.ByControl? && id == Identity(assetId, Some(env.normalize(control.routeRefs[k])), Some(control.id), None)
    case AggregateAt(i) => NamesShared(env, assetId, asset, env.normalize(asset.routes[i]), id, resolution)
    case MintAt(m) =>
      var at := (assetId, asset.mintControls[m].mintLabel);
      && resolution.ByMintControl?
      && id == Identity(assetId, if at in env.mintRoutes then Some(env.mintRoutes[at]) else None, Some(at.1), None)
  }

  ghost predicate NamesShared(env: Env, assetId: string, asset: Asset, routeId: string, id: Identity, resolution: Resolution) {
    exists ids ::
      && AreContributors(env, asset, routeId, ids)
      && if |ids| == 1 then resolution.ByControl? && id == Identity(assetId, Some(routeId), Some(ids[0]), None)
         else resolution.ByLaneAggregate? && id == Identity(assetId, Some(routeId), None, Some(ids))
  }

  lemma PlaceNamed(env: Env, assetId: string, asset: Asset, p: Place, e: Keyed)
    requires Deserves(env, asset, p) && Belongs(env, assetId, asset, p, e)
    ensures NamesPlace(env, assetId, asset, p, AuthoredIdentity(assetId, e.candidate), ResolutionOf(e.candidate))
  {
    hide AreContributors, FirstRef, Shared;
    if p.AggregateAt? {
      var routeId := env.normalize(asset.routes[p.i]);
      var ids :| AreContributors(env, asset, routeId, ids) && ids != [] && e.key == env.aggregateKey(assetId, routeId, ids)
        && e.candidate == if |ids| == 1 then Control(routeId, ids[0]) else LaneAggregate(routeId, ids);
      assert NamesShared(env, assetId, asset, routeId, AuthoredIdentity(assetId, e.candidate), ResolutionOf(e.candidate));
    }
  }

  // -------------------------------------------------------------- contributors, counted

  lemma InReferring(env: Env, controls: seq<BridgeControl>, routeId: string, id: string, c: nat)
    ensures c in Referring(env, controls, routeId, id) <==>
      c < |controls| && controls[c].id == id && RefersTo(env, controls[c], routeId)
  {
    hide RefersTo;
  }

  lemma ReferringMore(env: Env, controls: seq<BridgeControl>, last: BridgeControl, routeId: string, id: string)
    ensures |Referring(env, controls + [last], routeId, id)| ==
      |Referring(env, controls, routeId, id)| + if last.id == id && RefersTo(env, last, routeId) then 1 else 0
  {
    hide *;
    var before, after := Referring(env, controls, routeId, id), Referring(env, controls + [last], routeId, id);
    var n := |controls|;
    var own := if last.id == id && RefersTo(env, last, routeId) then {n} else {};
    forall c: nat
      ensures c in after <==> c in before || c in own
    {
      InReferring(env, controls, routeId, id, c);
      InReferring(env, controls + [last], routeId, id, c);
    }
    InReferring(env, controls, routeId, id, n);
    assert after == before + own;
  }

  lemma {:induction false} ContributorsCounted(env: Env, controls: seq<BridgeControl>, routeId: string, id: string)
    ensures multiset(Contributors(env, controls, routeId))[id] == |Referring(env, controls, routeId, id)|
  {
    if controls == [] {
      assert Referring(env, controls, routeId, id) == {};
    } else {
      var n := |controls| - 1;
      var last := controls[n];
      ContributorsCounted(env, controls[..n], routeId, id);
      assert controls == controls[..n] + [last];
      ReferringMore(env, controls[..n], last, routeId, id);
      assert RefersTo(env, last, routeId) <==>
        exists k :: 0 <= k < |last.routeRefs| && env.normalize(last.routeRefs[k]) == routeId;
      hide Referring;
    }
  }

  lemma {:induction false} SortedContributors(env: Env, asset: Asset, routeId: string)
    ensures AreContributors(env, asset, routeId, Sorted(Contributors(env, asset.bridgeControls, routeId)))
  {
    var ids := Contributors(env, asset.bridgeControls, routeId);
    SortedMeans(ids);
    hide Contributors, Referring, Sorted;
    forall id
      ensures multiset(ids)[id] == |Referring(env, asset.bridgeControls, routeId, id)|
    {
      ContributorsCounted(env, asset.bridgeControls, routeId, id);
    }
  }

  lemma {:induction false} SharedExactly(env: Env, asset: Asset, routeId: string)
    ensures Contributors(env, asset.bridgeControls, routeId) != [] <==> Shared(env, asset, routeId)
  {
    var controls := asset.bridgeControls;
    var ids := Contributors(env, controls, routeId);
    if ids != [] {
      ContributorsCounted(env, controls, routeId, ids[0]);
      assert ids[0] in multiset(ids);
      var c :| c in Referring(env, controls, routeId, ids[0]);
    }
    if Shared(env, asset, routeId) {
      var c :| 0 <= c < |controls| && RefersTo(env, controls[c], routeId);
      ContributorsCounted(env, controls, routeId, controls[c].id);
      assert c in Referring(env, controls, routeId, controls[c].id);
      assert multiset(ids)[controls[c].id] > 0;
    }
  }

  // ------------------------------------------------------------ each list, place by place

  // Different places, one for each entry, which belongs there.
  ghost predicate Placed(env: Env, assetId: string, asset: Asset, places: seq<Place>, entries: seq<Keyed>) {
    && |places| == |entries|
    && (forall i, j :: 0 <= i < j < |places| ==> places[i] != places[j])
    && forall i :: 0 <= i < |places| ==> Deserves(env, asset, places[i]) && Belongs(env, assetId, asset, places[i], entries[i])
  }

  lemma PlacedMore(env: Env, assetId: string, asset: Asset, places: seq<Place>, entries: seq<Keyed>, p: Place, e: Keyed)
    requires Placed(env, assetId, asset, places, entries) && p !in places
    requires Deserves(env, asset, p) && Belongs(env, assetId, asset, p, e)
    ensures Placed(env, assetId, asset, places + [p], entries + [e])
  {
    hide Deserves, Belongs;
  }

  lemma PlacedBoth(
    env: Env, assetId: string, asset: Asset, places: seq<Place>, entries: seq<Keyed>, others: seq<Place>, more: seq<Keyed>)
    requires Placed(env, assetId, asset, places, entries) && Placed(env, assetId, asset, others, more)
    requires forall p :: p in places ==> p !in others
    ensures Placed(env, assetId, asset, places + others, entries + more)
  {
    hide Deserves, Belongs;
    forall i, j | 0 <= i < j < |places + others|
      ensures (places + others)[i] != (places + others)[j]
    {
      if i < |places| <= j {
        assert places[i] in places && others[j - |places|] in others;
      }
    }
  }

  lemma {:induction false} LanePlaces(env: Env, assetId: string, asset: Asset, n: nat) returns (places: seq<Place>)
    requires n <= |asset.routes|
    ensures Placed(env, assetId, asset, places, LaneEntries(env, assetId, Normalized(env, asset.routes)[..n]))
    ensures forall p :: p in places <==> p.LaneAt? && p.i < n && Deserves(env, asset, p)
  {
    hide Placed;
    var ids := Normalized(env, asset.routes);
    if n == 0 {
      places := [];
      NothingPlaced(env, assetId, asset);
    } else {
      places := LanePlaces(env, assetId, asset, n - 1);
      assert ids[..n][..n - 1] == ids[..n - 1];
      var entries := LaneEntries(env, assetId, ids[..n - 1]);
      if ids[n - 1] != "" {
        var p, e := LaneAt(n - 1), Keyed(env.bridgeKey(assetId, ids[n - 1]), Lane(ids[n - 1]));
        PlacedMore(env, assetId, asset, places, entries, p, e);
        places := places + [p];
      } else {
        assert entries + [] == entries;
      }
    }
  }

  lemma NothingPlaced(env: Env, assetId: string, asset: Asset)
    ensures Placed(env, assetId, asset, [], [])
  {
  }

  lemma {:induction false} AggregatePlaces(env: Env, assetId: string, asset: Asset, n: nat) returns (places: seq<Place>)
    requires n <= |asset.routes|
    ensures Placed(
      env, assetId, asset, places, AggregateEntries(env, assetId, asset.bridgeControls, Normalized(env, asset.routes)[..n]))
    ensures forall p :: p in places <==> p.AggregateAt? && p.i < n && Deserves(env, asset, p)
  {
    hide Placed, AggregateEntry, Shared, Belongs;
    var ids := Normalized(env, asset.routes);
    if n == 0 {
      places := [];
      NothingPlaced(env, assetId, asset);
    } else {
      places := AggregatePlaces(env, assetId, asset, n - 1);
      assert ids[..n][..n - 1] == ids[..n - 1];
      var entries := AggregateEntries(env, assetId, asset.bridgeControls, ids[..n - 1]);
      var p := AggregateAt(n - 1);
      OneAggregate(env, assetId, asset, n - 1);
      var last := AggregateEntry(env, assetId, asset.bridgeControls, ids[n - 1]);
      if Deserves(env, asset, p) {
        PlacedMore(env, assetId, asset, places, entries, p, last[0]);
        places := places + [p];
        assert last == [last[0]];
      } else {
        assert entries + [] == entries;
      }
    }
  }

  lemma OneAggregate(env: Env, assetId: string, asset: Asset, i: nat)
    requires i < |asset.routes|
    ensures var es := AggregateEntry(env, assetId, asset.bridgeControls, env.normalize(asset.routes[i]));
      if Deserves(env, asset, AggregateAt(i)) then |es| == 1 && Belongs(env, assetId, asset, AggregateAt(i), es[0]) else es == []
  {
    var routeId := env.normalize(asset.routes[i]);
    var ids := Sorted(Contributors(env, asset.bridgeControls, routeId));
    SharedExactly(env, asset, routeId);
    SortedContributors(env, asset, routeId);
    SortedMeans(Contributors(env, asset.bridgeControls, routeId));
    SameBagEmpty(ids, Contributors(env, asset.bridgeControls, routeId));
    hide Contributors, Sorted, AreContributors, Shared;
    if routeId != "" && ids != [] {
      var e := AggregateEntry(env, assetId, asset.bridgeControls, routeId)[0];
      assert IsAggregate(env, assetId, asset, routeId, e);
    }
  }

  lemma SameBagEmpty<T>(a: seq<T>, b: seq<T>)
    requires multiset(a) == multiset(b)
    ensures a == [] <==> b == []
  {
    assert a != [] ==> a[0] in multiset(a);
    assert b != [] ==> b[0] in multiset(b);
  }

  lemma {:induction false} MintPlaces(env: Env, assetId: string, asset: Asset, n: nat) returns (places: seq<Place>)
    requires n <= |asset.mintControls|
    ensures Placed(env, assetId, asset, places, MintEntries(env, assetId, asset.mintControls)[..n])
    ensures forall p :: p in places <==> p.MintAt? && p.m < n
  {
    hide Placed;
    var entries := MintEntries(env, assetId, asset.mintControls);
    if n == 0 {
      places := [];
      NothingPlaced(env, assetId, asset);
      assert entries[..0] == [];
    } else {
      places := MintPlaces(env, assetId, asset, n - 1);
      PlacedMore(env, assetId, asset, places, entries[..n - 1], MintAt(n - 1), entries[n - 1]);
      places := places + [MintAt(n - 1)];
      assert entries[..n] == entries[..n - 1] + [entries[n - 1]];
    }
  }

  // The references of one control, each route once, at its first reference.
  lemma {:induction false} RefsFound(env: Env, refs: seq<string>, n: nat) returns (ks: seq<nat>)
    requires n <= |refs|
    ensures |ks| == |ControlRoutes(env, refs[..n])|
    ensures forall k: nat :: k in ks <==> k < n && FirstRef(env, refs, k)
    ensures forall i, j :: 0 <= i < j < |ks| ==> ks[i] != ks[j]
    ensures forall i :: 0 <= i < |ks| ==> ks[i] < n && env.normalize(refs[ks[i]]) == ControlRoutes(env, refs[..n])[i]
  {
    if n == 0 {
      ks := [];
    } else {
      ks := RefsFound(env, refs, n - 1);
      assert refs[..n][..n - 1] == refs[..n - 1];
      var before, id := ControlRoutes(env, refs[..n - 1]), env.normalize(refs[n - 1]);
      FirstRefIsNew(env, refs, n - 1);
      if id != "" && id !in before {
        ks := ks + [n - 1];
      }
    }
  }

  lemma {:induction false} FirstRefIsNew(env: Env, refs: seq<string>, n: nat)
    requires n < |refs|
    ensures FirstRef(env, refs, n) <==>
      env.normalize(refs[n]) != "" && env.normalize(refs[n]) !in ControlRoutes(env, refs[..n])
  {
    ControlRoutesMean(env, refs[..n]);
    hide ControlRoutes;
    assert forall k :: 0 <= k < n ==> refs[..n][k] == refs[k];
  }

  lemma {:induction false} ControlPlaces(env: Env, assetId: string, asset: Asset, n: nat) returns (places: seq<Place>)
    requires n <= |asset.bridgeControls|
    ensures Placed(env, assetId, asset, places, ControlEntries(env, assetId, asset.bridgeControls[..n]))
    ensures forall p :: p in places <==> p.ControlAt? && p.c < n && Deserves(env, asset, p)
  {
    hide Placed, FirstRef, RoutesOfControl, ControlRoutes, Belongs;
    var controls := asset.bridgeControls;
    if n == 0 {
      places := [];
      NothingPlaced(env, assetId, asset);
    } else {
      places := ControlPlaces(env, assetId, asset, n - 1);
      assert controls[..n][..n - 1] == controls[..n - 1];
      var entries := ControlEntries(env, assetId, controls[..n - 1]);
      var own := OneControl(env, assetId, asset, n - 1);
      var control := controls[n - 1];
      PlacedBoth(
        env, assetId, asset, places, entries, own,
        RoutesOfControl(env, assetId, control.id, ControlRoutes(env, control.routeRefs)));
      places := places + own;
    }
  }

  lemma OneControl(env: Env, assetId: string, asset: Asset, c: nat) returns (places: seq<Place>)
    requires c < |asset.bridgeControls|
    ensures var control := asset.bridgeControls[c];
      Placed(env, assetId, asset, places, RoutesOfControl(env, assetId, control.id, ControlRoutes(env, control.routeRefs)))
    ensures forall p :: p in places <==> p.ControlAt? && p.c == c && Deserves(env, asset, p)
  {
    var control := asset.bridgeControls[c];
    var refs := control.routeRefs;
    var ks := RefsFound(env, refs, |refs|);
    assert refs[..|refs|] == refs;
    hide ControlRoutes, FirstRef;
    places := seq(|ks|, i requires 0 <= i < |ks| => ControlAt(c, ks[i]));
    forall i | 0 <= i < |ks|
      ensures ks[i] in ks
    {
    }
    forall k | k in ks
      ensures ControlAt(c, k) in places
    {
      var i :| 0 <= i < |ks| && ks[i] == k;
      assert places[i] == ControlAt(c, k);
    }
  }

  // The candidates of an asset are those of its places, one for each.
  lemma EntriesExactly(env: Env, assetId: string, asset: Asset) returns (places: seq<Place>)
    ensures Placed(env, assetId, asset, places, AllEntries(env, assetId, asset))
    ensures forall p :: p in places <==> Deserves(env, asset, p)
  {
    var routes, controls, mints := asset.routes, asset.bridgeControls, asset.mintControls;
    var ids := Normalized(env, routes);
    assert ids[..|routes|] == ids && controls[..|controls|] == controls;
    var entries := MintEntries(env, assetId, mints);
    assert entries[..|mints|] == entries;
    var lanes := LanePlaces(env, assetId, asset, |routes|);
    var own := ControlPlaces(env, assetId, asset, |controls|);
    var shared := AggregatePlaces(env, assetId, asset, |routes|);
    var minted := MintPlaces(env, assetId, asset, |mints|);
    hide Placed, LaneEntries, ControlEntries, AggregateEntries, MintEntries, Normalized, FirstRef, Shared;
    var a, b, c := LaneEntries(env, assetId, ids), ControlEntries(env, assetId, controls),
      AggregateEntries(env, assetId, controls, ids);
    PlacedBoth(env, assetId, asset, lanes, a, own, b);
    PlacedBoth(env, assetId, asset, lanes + own, a + b, shared, c);
    PlacedBoth(env, assetId, asset, lanes + own + shared, a + b + c, minted, entries);
    places := lanes + own + shared + minted;
  }

  // ------------------------------------------------------------- the map, in terms of the metadata

  lemma SameContributors(env: Env, asset: Asset, routeId: string, a: seq<string>, b: seq<string>)
    requires AreContributors(env, asset, routeId, a) && AreContributors(env, asset, routeId, b)
    ensures a == b
  {
    hide Referring, AscendingBy;
    assert forall id :: multiset(a)[id] == multiset(b)[id];
    AscendingUnique(a, b);
  }

  // A place has one candidate.
  lemma OneCandidate(env: Env, assetId: string, asset: Asset, p: Place, e: Keyed, f: Keyed)
    requires Deserves(env, asset, p) && Belongs(env, assetId, asset, p, e) && Belongs(env, assetId, asset, p, f)
    ensures e == f
  {
    if p.AggregateAt? {
      var routeId := env.normalize(asset.routes[p.i]);
      var a :| AreContributors(env, asset, routeId, a) && a != [] && e.key == env.aggregateKey(assetId, routeId, a)
        && e.candidate == if |a| == 1 then Control(routeId, a[0]) else LaneAggregate(routeId, a);
      var b :| AreContributors(env, asset, routeId, b) && b != [] && f.key == env.aggregateKey(assetId, routeId, b)
        && f.candidate == if |b| == 1 then Control(routeId, b[0]) else LaneAggregate(routeId, b);
      SameContributors(env, asset, routeId, a, b);
    }
  }

  // No two places have candidates of one key.
  ghost predicate KeysApart(env: Env, assetId: string, asset: Asset) {
    forall p, q, e, f ::
      && Deserves(env, asset, p) && Belongs(env, assetId, asset, p, e)
      && Deserves(env, asset, q) && Belongs(env, assetId, asset, q, f) && p != q
      ==> e.key != f.key
  }

  // Some place has this candidate.
  ghost predicate HasCandidate(env: Env, assetId: string, asset: Asset, e: Keyed) {
    exists p :: Deserves(env, asset, p) && Belongs(env, assetId, asset, p, e)
  }

  ghost predicate HasKey(env: Env, assetId: string, asset: Asset, key: string) {
    exists p, e :: Deserves(env, asset, p) && Belongs(env, assetId, asset, p, e) && e.key == key
  }

  // An identity and a resolution that name the candidate of a key.
  ghost predicate NamesKey(env: Env, assetId: string, asset: Asset, key: string, id: Identity, resolution: Resolution) {
    exists p, e ::
      && Deserves(env, asset, p) && Belongs(env, assetId, asset, p, e) && e.key == key
      && NamesPlace(env, assetId, asset, p, id, resolution)
  }

  lemma PlacedAt(env: Env, assetId: string, asset: Asset, places: seq<Place>, entries: seq<Keyed>, p: Place, e: Keyed)
    returns (i: nat)
    requires Placed(env, assetId, asset, places, entries) && p in places
    requires Deserves(env, asset, p) && Belongs(env, assetId, asset, p, e)
    ensures i < |places| == |entries| && places[i] == p && entries[i] == e
  {
    hide Belongs, Deserves;
    i :| 0 <= i < |places| && places[i] == p;
    OneCandidate(env, assetId, asset, p, entries[i], e);
  }

  lemma KeysApartExactly(env: Env, assetId: string, asset: Asset, places: seq<Place>, entries: seq<Keyed>)
    requires Placed(env, assetId, asset, places, entries) && forall p :: p in places <==> Deserves(env, asset, p)
    ensures KeysApart(env, assetId, asset) <==> forall i, j :: 0 <= i < j < |entries| ==> entries[i].key != entries[j].key
  {
    hide Belongs, Deserves;
    if forall i, j :: 0 <= i < j < |entries| ==> entries[i].key != entries[j].key {
      forall p, q, e, f |
        && Deserves(env, asset, p) && Belongs(env, assetId, asset, p, e)
        && Deserves(env, asset, q) && Belongs(env, assetId, asset, q, f) && p != q
        ensures e.key != f.key
      {
        var i := PlacedAt(env, assetId, asset, places, entries, p, e);
        var j := PlacedAt(env, assetId, asset, places, entries, q, f);
      }
    }
    if KeysApart(env, assetId, asset) {
      forall i, j | 0 <= i < j < |entries|
        ensures entries[i].key != entries[j].key
      {
        assert places[i] != places[j];
      }
    }
  }

  // The candidates can be collected exactly if no two places share a key, and then are exactly those of
  // the places.
  lemma CandidatesExactly(env: Env, assetId: string, asset: Asset)
    ensures var m := Collected(AllEntries(env, assetId, asset));
      && (m.Returned? <==> KeysApart(env, assetId, asset))
      && (m.Returned? ==>
            forall key, c :: key in m.value && m.value[key] == c <==> HasCandidate(env, assetId, asset, Keyed(key, c)))
  {
    hide Belongs, Deserves, AllEntries, KeysApart, Collected;
    var entries := AllEntries(env, assetId, asset);
    var places := EntriesExactly(env, assetId, asset);
    CollectedMeans(entries);
    KeysApartExactly(env, assetId, asset, places, entries);
    if Collected(entries).Returned? {
      var m := Collected(entries).value;
      forall key, c
        ensures key in m && m[key] == c <==> HasCandidate(env, assetId, asset, Keyed(key, c))
      {
        PlacedEntry(env, assetId, asset, places, entries, Keyed(key, c));
      }
    }
  }

  lemma PlacedEntry(env: Env, assetId: string, asset: Asset, places: seq<Place>, entries: seq<Keyed>, e: Keyed)
    requires Placed(env, assetId, asset, places, entries) && forall p :: p in places <==> Deserves(env, asset, p)
    ensures e in entries <==> HasCandidate(env, assetId, asset, e)
  {
    hide Belongs, Deserves;
    if e in entries {
      var i :| 0 <= i < |entries| && entries[i] == e;
      assert places[i] in places;
    }
    if HasCandidate(env, assetId, asset, e) {
      var p :| Deserves(env, asset, p) && Belongs(env, assetId, asset, p, e);
      var i := PlacedAt(env, assetId, asset, places, entries, p, e);
    }
  }

  // So a key is known exactly if it can be collected and belongs to some place, and what is found under
  // it has the identity of that place.
  lemma KnownExactly(env: Env, assetId: string, asset: Asset, key: string)
    ensures var m := Collected(AllEntries(env, assetId, asset));
      && (m.Returned? && key in m.value <==> KeysApart(env, assetId, asset) && HasKey(env, assetId, asset, key))
      && (m.Returned? && key in m.value ==>
            NamesKey(env, assetId, asset, key, AuthoredIdentity(assetId, m.value[key]), ResolutionOf(m.value[key])))
  {
    hide Belongs, Deserves, AllEntries, KeysApart, Collected, NamesPlace, AuthoredIdentity, ResolutionOf;
    CandidatesExactly(env, assetId, asset);
    var m := Collected(AllEntries(env, assetId, asset));
    if m.Returned? && key in m.value {
      var e := Keyed(key, m.value[key]);
      assert HasCandidate(env, assetId, asset, e);
      var p :| Deserves(env, asset, p) && Belongs(env, assetId, asset, p, e);
      PlaceNamed(env, assetId, asset, p, e);
    }
    if m.Returned? && HasKey(env, assetId, asset, key) {
      var p, e :| Deserves(env, asset, p) && Belongs(env, assetId, asset, p, e) && e.key == key;
      assert e == Keyed(key, e.candidate);
      assert HasCandidate(env, assetId, asset, Keyed(key, e.candidate));
    }
  }
}
